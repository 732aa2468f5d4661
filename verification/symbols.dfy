/** Symbols bound in scopes: variables (scalar or array) and functions
    (semantics/Symbol.java, VarSymbol.java, FuncSymbol.java). */
module Symbols {
  import opened Common
  import opened Types

  /** A variable; `dims` is empty for a scalar. */
  datatype VarSymbol = VarSymbol(name: string, ty: Type, dims: seq<int>)

  /** A function; `locals` is the scope of its body once collected. */
  datatype FuncSymbol = FuncSymbol(name: string, ty: Type, params: seq<VarSymbol>, locals: Option<nat>)

  datatype Symbol = Var(v: VarSymbol) | Func(f: FuncSymbol) {
    function Name(): string {
      match this
      case Var(v) => v.name
      case Func(f) => f.name
    }
  }

  /** The two-argument constructor: always a scalar. */
  function NewScalar(name: string, ty: Type): (v: VarSymbol)
    ensures v.name == name && v.ty == ty
    ensures !IsArray(v) && Rank(v) == 0
  {
    VarSymbol(name, ty, [])
  }

  /** The three-argument constructor; a null dimension array becomes an empty one. */
  function NewVar(name: string, ty: Type, dims: Option<seq<int>>): (v: VarSymbol)
    ensures v.name == name && v.ty == ty
    ensures dims.None? ==> !IsArray(v)
    ensures dims.Some? ==> v.dims == dims.value && Rank(v) == |dims.value|
  {
    VarSymbol(name, ty, if dims.Some? then dims.value else [])
  }

  predicate IsArray(v: VarSymbol) {
    |v.dims| > 0
  }

  function Rank(v: VarSymbol): nat {
    |v.dims|
  }

  /** The `", "`-separated `text` reads back, field by field, as the decimal
      renderings of `dims`. */
  predicate ReadsBackAs(text: string, dims: seq<int>) {
    var fs := CommaFields(text);
    && |fs| == |dims|
    && forall k :: 0 <= k < |dims| ==> fs[k] == IntToString(dims[k]) && IsIntLit(fs[k]) && LitValue(fs[k]) == dims[k]
  }

  /** `Arrays.toString(int[])`: "[d0, d1, ...]"; the text between the
      brackets reads back as the dimensions. */
  function DimsToString(dims: seq<int>): (s: string)
    requires |dims| > 0
    ensures |s| >= 2 && s[0] == '[' && s[|s| - 1] == ']'
    ensures ReadsBackAs(s[1..|s| - 1], dims)
  {
    var texts := seq(|dims|, i requires 0 <= i < |dims| => IntToString(dims[i]));
    forall k | 0 <= k < |texts|
      ensures NoComma(texts[k])
    {
      IntLitNoComma(texts[k]);
    }
    JoinCommaFields(texts);
    var s := "[" + JoinComma(texts) + "]";
    assert s[1..|s| - 1] == JoinComma(texts);
    s
  }

  /** "type name" for a scalar, followed by the bracketed dimensions for an
      array, which read back as the dimensions. */
  function VarToString(v: VarSymbol): (s: string)
    ensures var base := Types.ToString(v.ty) + " " + v.name;
      && base <= s
      && (s == base <==> !IsArray(v))
      && (IsArray(v) ==> |s| >= |base| + 2 && s[|base|] == '[' && s[|s| - 1] == ']' && ReadsBackAs(s[|base| + 1..|s| - 1], v.dims))
  {
    var base := Types.ToString(v.ty) + " " + v.name;
    if !IsArray(v) then base
    else
      var d := DimsToString(v.dims);
      var s := base + d;
      assert s[|base|] == '[' && s[|s| - 1] == ']';
      assert s[|base| + 1..|s| - 1] == d[1..|d| - 1];
      s
  }
}
