/** Pre-declaration of the built-in output functions (semantics/Builtins.java). */
module Builtins {
  import opened Common
  import opened Types
  import opened Symbols
  import opened Scopes

  /** The parameters of a built-in: "p0", "p1", ... with the requested types. */
  function BuiltinParams(ps: seq<Type>): (r: seq<VarSymbol>)
    ensures |r| == |ps|
    ensures forall i :: 0 <= i < |ps| ==> r[i].ty == ps[i] && !IsArray(r[i])
  {
    seq(|ps|, i requires 0 <= i < |ps| => NewScalar("p" + IntToString(i), ps[i]))
  }

  function BuiltinFunc(name: string, ret: Type, ps: seq<Type>): Symbol {
    Func(FuncSymbol(name, ret, BuiltinParams(ps), None))
  }

  predicate Resolves(t: Table, name: string)
    requires Valid(t)
  {
    ResolveCurrent(t, name).Some?
  }

  /** Defines the function in the current scope unless the name already resolves
      from there; the scope's own define is used, so no diagnostic is ever added. */
  function DefineIfAbsent(t: Table, name: string, ret: Type, ps: seq<Type>): (t': Table)
    requires Valid(t)
    ensures Valid(t') && t'.stack == t.stack && t'.errors == t.errors && |t'.scopes| == |t.scopes|
    ensures Resolves(t, name) ==> t' == t
    ensures !Resolves(t, name) ==> ResolveCurrent(t', name) == Some(BuiltinFunc(name, ret, ps))
    ensures Resolves(t', name)
  {
    var g := Current(t);
    if Resolve(t.scopes, g, name).Some? then t
    else
      var (a, _) := DefineIn(t.scopes, g, BuiltinFunc(name, ret, ps));
      Table(a, t.stack, t.errors)
  }

  /** Names other than the requested one resolve exactly as before. */
  lemma DefineIfAbsentKeepsOthers(t: Table, name: string, ret: Type, ps: seq<Type>, other: string)
    requires Valid(t) && other != name
    ensures ResolveCurrent(DefineIfAbsent(t, name, ret, ps), other) == ResolveCurrent(t, other)
  {
    if !Resolves(t, name) {
      DefineKeepsOtherNames(t.scopes, Current(t), BuiltinFunc(name, ret, ps), Current(t), other);
    }
  }

  /** Resolving names stay resolving: a request either changes nothing or
      adds a binding for a name that did not resolve. */
  lemma DefineIfAbsentKeepsResolving(t: Table, name: string, ret: Type, ps: seq<Type>, x: string)
    requires Valid(t) && Resolves(t, x)
    ensures ResolveCurrent(DefineIfAbsent(t, name, ret, ps), x) == ResolveCurrent(t, x)
  {
    if x != name {
      DefineIfAbsentKeepsOthers(t, name, ret, ps, x);
    }
  }

  /** One group of requests, as `install` makes them twice: an int printer,
      a char printer and a string printer under the group's names, then
      `println`. */
  function Requests(t: Table, i: string, c: string, s: string): (t': Table)
    requires Valid(t)
    ensures Valid(t') && t'.stack == t.stack && t'.errors == t.errors
  {
    var t1 := DefineIfAbsent(t, i, VOID, [INT]);
    var t2 := DefineIfAbsent(t1, c, VOID, [INT]);
    var t3 := DefineIfAbsent(t2, s, VOID, [STRING]);
    DefineIfAbsent(t3, "println", VOID, [])
  }

  /** Builtins.install: the camelCase group, then the snake_case group, whose
      `println` request is a repeat. It never reports an error and never
      touches the stack. */
  function Install(t: Table): (t': Table)
    requires Valid(t)
    ensures Valid(t') && t'.stack == t.stack && t'.errors == t.errors
  {
    Requests(Requests(t, "printInt", "printChar", "printString"), "print_int", "print_char", "print_str")
  }

  predicate InGroup(x: string, i: string, c: string, s: string) {
    x == i || x == c || x == s || x == "println"
  }

  predicate IsCamelName(x: string) {
    InGroup(x, "printInt", "printChar", "printString")
  }

  predicate IsSnakeName(x: string) {
    InGroup(x, "print_int", "print_char", "print_str")
  }

  /** After a group of requests every name of the group resolves, and a name
      that already resolved keeps its binding. */
  lemma RequestsResolve(t: Table, i: string, c: string, s: string, x: string)
    requires Valid(t) && (InGroup(x, i, c, s) || Resolves(t, x))
    ensures Resolves(Requests(t, i, c, s), x)
    ensures Resolves(t, x) ==> ResolveCurrent(Requests(t, i, c, s), x) == ResolveCurrent(t, x)
  {
    var t1 := DefineIfAbsent(t, i, VOID, [INT]);
    var t2 := DefineIfAbsent(t1, c, VOID, [INT]);
    var t3 := DefineIfAbsent(t2, s, VOID, [STRING]);
    if Resolves(t, x) {
      DefineIfAbsentKeepsResolving(t, i, VOID, [INT], x);
    }
    if Resolves(t1, x) {
      DefineIfAbsentKeepsResolving(t1, c, VOID, [INT], x);
    }
    if Resolves(t2, x) {
      DefineIfAbsentKeepsResolving(t2, s, VOID, [STRING], x);
    }
    if Resolves(t3, x) {
      DefineIfAbsentKeepsResolving(t3, "println", VOID, [], x);
    }
  }

  /** Names outside the group resolve exactly as before a group of requests. */
  lemma RequestsKeepOthers(t: Table, i: string, c: string, s: string, x: string)
    requires Valid(t) && !InGroup(x, i, c, s)
    ensures ResolveCurrent(Requests(t, i, c, s), x) == ResolveCurrent(t, x)
  {
    var t1 := DefineIfAbsent(t, i, VOID, [INT]);
    var t2 := DefineIfAbsent(t1, c, VOID, [INT]);
    var t3 := DefineIfAbsent(t2, s, VOID, [STRING]);
    DefineIfAbsentKeepsOthers(t, i, VOID, [INT], x);
    DefineIfAbsentKeepsOthers(t1, c, VOID, [INT], x);
    DefineIfAbsentKeepsOthers(t2, s, VOID, [STRING], x);
    DefineIfAbsentKeepsOthers(t3, "println", VOID, [], x);
  }

  /** After `install` every built-in name resolves, and a name that already
      resolved keeps its binding. */
  lemma InstallResolves(t: Table, x: string)
    requires Valid(t) && (IsCamelName(x) || IsSnakeName(x) || Resolves(t, x))
    ensures Resolves(Install(t), x)
    ensures Resolves(t, x) ==> ResolveCurrent(Install(t), x) == ResolveCurrent(t, x)
  {
    if IsCamelName(x) || Resolves(t, x) {
      RequestsResolve(t, "printInt", "printChar", "printString", x);
    }
    RequestsResolve(Requests(t, "printInt", "printChar", "printString"), "print_int", "print_char", "print_str", x);
  }

  /** `install` is idempotent: the second run finds every name resolving. */
  lemma InstallIdempotent(t: Table)
    requires Valid(t)
    ensures Install(Install(t)) == Install(t)
  {
    var u := Install(t);
    InstallResolves(t, "printInt");
    InstallResolves(t, "printChar");
    InstallResolves(t, "printString");
    InstallResolves(t, "println");
    InstallResolves(t, "print_int");
    InstallResolves(t, "print_char");
    InstallResolves(t, "print_str");
  }

  /** A table holding only the global scope, with bindings `m`. */
  function GlobalOnly(m: map<string, Symbol>): (t: Table)
    ensures Valid(t) && Current(t) == 0
  {
    Table([Scope(GlobalName, None, m)], [0], [])
  }

  /** On a global-only table a request adds its binding when the name is new. */
  lemma DefineIfAbsentGlobalOnly(m: map<string, Symbol>, name: string, ret: Type, ps: seq<Type>)
    ensures DefineIfAbsent(GlobalOnly(m), name, ret, ps)
         == GlobalOnly(if name in m then m else m[name := BuiltinFunc(name, ret, ps)])
  {
  }

  /** On a global-only table a group of distinct new names adds one `void`
      function each, in order; `println` keeps an existing binding. */
  lemma RequestsOnGlobalOnly(m: map<string, Symbol>, i: string, c: string, s: string)
    requires i !in m && c !in m && s !in m
    requires i != c && i != s && c != s && "println" !in [i, c, s]
    ensures var m3 := m[i := BuiltinFunc(i, VOID, [INT])][c := BuiltinFunc(c, VOID, [INT])][s := BuiltinFunc(s, VOID, [STRING])];
      Requests(GlobalOnly(m), i, c, s)
        == GlobalOnly(if "println" in m then m3 else m3["println" := BuiltinFunc("println", VOID, [])])
  {
    var m1 := m[i := BuiltinFunc(i, VOID, [INT])];
    DefineIfAbsentGlobalOnly(m, i, VOID, [INT]);
    var t1 := DefineIfAbsent(GlobalOnly(m), i, VOID, [INT]);
    var m2 := m1[c := BuiltinFunc(c, VOID, [INT])];
    DefineIfAbsentGlobalOnly(m1, c, VOID, [INT]);
    var t2 := DefineIfAbsent(t1, c, VOID, [INT]);
    var m3 := m2[s := BuiltinFunc(s, VOID, [STRING])];
    DefineIfAbsentGlobalOnly(m2, s, VOID, [STRING]);
    assert "println" in m3 <==> "println" in m;
    DefineIfAbsentGlobalOnly(m3, "println", VOID, []);
  }

  /** Names other than the built-ins resolve exactly as before `install`. */
  lemma InstallKeepsOthers(t: Table, x: string)
    requires Valid(t) && !IsCamelName(x) && !IsSnakeName(x)
    ensures ResolveCurrent(Install(t), x) == ResolveCurrent(t, x)
  {
    RequestsKeepOthers(t, "printInt", "printChar", "printString", x);
    RequestsKeepOthers(Requests(t, "printInt", "printChar", "printString"), "print_int", "print_char", "print_str", x);
  }

  lemma ResolveGlobalOnly(m: map<string, Symbol>, x: string)
    ensures ResolveCurrent(GlobalOnly(m), x) == if x in m then Some(m[x]) else None
  {
  }

  /** On a global-only table without the built-in names (a fresh table is
      one, with no bindings at all), the camelCase built-ins resolve to the
      `void` functions of their requests. */
  lemma InstallCamelOnGlobalTable(m: map<string, Symbol>)
    requires "printInt" !in m && "printChar" !in m && "printString" !in m && "println" !in m
    requires "print_int" !in m && "print_char" !in m && "print_str" !in m
    ensures var t := Install(GlobalOnly(m));
      && t.errors == []
      && ResolveCurrent(t, "printInt") == Some(BuiltinFunc("printInt", VOID, [INT]))
      && ResolveCurrent(t, "printChar") == Some(BuiltinFunc("printChar", VOID, [INT]))
      && ResolveCurrent(t, "printString") == Some(BuiltinFunc("printString", VOID, [STRING]))
      && ResolveCurrent(t, "println") == Some(BuiltinFunc("println", VOID, []))
  {
    RequestsOnGlobalOnly(m, "printInt", "printChar", "printString");
    var c := m[
      "printInt" := BuiltinFunc("printInt", VOID, [INT])][
      "printChar" := BuiltinFunc("printChar", VOID, [INT])][
      "printString" := BuiltinFunc("printString", VOID, [STRING])][
      "println" := BuiltinFunc("println", VOID, [])];
    var u := GlobalOnly(c);
    ResolveGlobalOnly(c, "printInt");
    ResolveGlobalOnly(c, "printChar");
    ResolveGlobalOnly(c, "printString");
    ResolveGlobalOnly(c, "println");
    RequestsResolve(u, "print_int", "print_char", "print_str", "printInt");
    RequestsResolve(u, "print_int", "print_char", "print_str", "printChar");
    RequestsResolve(u, "print_int", "print_char", "print_str", "printString");
    RequestsResolve(u, "print_int", "print_char", "print_str", "println");
  }

  /** ... and the snake_case aliases resolve to functions of their own. */
  lemma InstallSnakeOnGlobalTable(m: map<string, Symbol>)
    requires "printInt" !in m && "printChar" !in m && "printString" !in m && "println" !in m
    requires "print_int" !in m && "print_char" !in m && "print_str" !in m
    ensures var t := Install(GlobalOnly(m));
      && ResolveCurrent(t, "print_int") == Some(BuiltinFunc("print_int", VOID, [INT]))
      && ResolveCurrent(t, "print_char") == Some(BuiltinFunc("print_char", VOID, [INT]))
      && ResolveCurrent(t, "print_str") == Some(BuiltinFunc("print_str", VOID, [STRING]))
  {
    RequestsOnGlobalOnly(m, "printInt", "printChar", "printString");
    var c := m[
      "printInt" := BuiltinFunc("printInt", VOID, [INT])][
      "printChar" := BuiltinFunc("printChar", VOID, [INT])][
      "printString" := BuiltinFunc("printString", VOID, [STRING])][
      "println" := BuiltinFunc("println", VOID, [])];
    RequestsOnGlobalOnly(c, "print_int", "print_char", "print_str");
    var d := c[
      "print_int" := BuiltinFunc("print_int", VOID, [INT])][
      "print_char" := BuiltinFunc("print_char", VOID, [INT])][
      "print_str" := BuiltinFunc("print_str", VOID, [STRING])];
    ResolveGlobalOnly(d, "print_int");
    ResolveGlobalOnly(d, "print_char");
    ResolveGlobalOnly(d, "print_str");
  }

  /** A fresh table is a global-only table with no bindings. */
  lemma InitIsGlobalOnly()
    ensures Init() == GlobalOnly(map[])
  {
  }
}
