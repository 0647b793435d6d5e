/**
 * The read-only side of symboltable.c (and of symbolTable.c, where the same
 * functions carry the ST_/FunctionST_ prefixes): name resolution, the search
 * for a function's table, the parameter of a given declaration index, and the
 * call-order test.
 */
module Lookup {
  import opened Wrappers
  import opened Symbols
  import opened Errors
  import opened Scopes
  import opened Ast
  import opened SymbolTable

  /** SymbolTable_resolve: the locals first, then the parameters, then the globals. */
  function Resolve(p: Program, f: FunctionTable, n: Name): (r: Option<Symbol>)
    ensures r.Some? <==> HasName(f.locals.symbols, n) || HasName(f.parameters.symbols, n) || HasName(p.globals.symbols, n)
    ensures r.Some? ==> r.value.identifier == n
    ensures HasName(f.locals.symbols, n) ==> r.value in f.locals.symbols
    ensures !HasName(f.locals.symbols, n) && HasName(f.parameters.symbols, n) ==> r.value in f.parameters.symbols
    ensures !HasName(f.locals.symbols, n) && !HasName(f.parameters.symbols, n) && r.Some? ==> r.value in p.globals.symbols
  {
    match Get(f.locals, n)
    case Some(s) => Some(s)
    case None =>
      match Get(f.parameters, n)
      case Some(s) => Some(s)
      case None => Get(p.globals, n)
  }

  /** What SymbolTable_resolve_from_node leads to: the symbol, or the process exiting with the undeclared-symbol code. */
  datatype Resolution = Found(sym: Symbol) | Exit(code: ErrorKind)

  /** SymbolTable_resolve_from_node. */
  function ResolveFromNode(p: Program, f: FunctionTable, n: Name): (r: Resolution)
    ensures r.Exit? <==> !HasName(f.locals.symbols, n) && !HasName(f.parameters.symbols, n) && !HasName(p.globals.symbols, n)
    ensures r.Exit? ==> r.code == UndeclaredSymbol
    ensures r.Found? ==> Resolve(p, f, n) == Some(r.sym) && r.sym.identifier == n
  {
    match Resolve(p, f, n)
    case Some(s) => Found(s)
    case None => Exit(UndeclaredSymbol)
  }

  /** On valid scopes a name found among the locals resolves to that local, whatever the parameters and globals hold. */
  lemma LocalsShadow(p: Program, f: FunctionTable, i: nat)
    requires Valid(f.locals) && i < |f.locals.symbols|
    ensures Resolve(p, f, f.locals.symbols[i].identifier) == Some(f.locals.symbols[i])
  {
    GetUnique(f.locals, i);
  }

  /** On valid scopes a parameter whose name no local has resolves to that parameter. */
  lemma ParamsShadow(p: Program, f: FunctionTable, i: nat)
    requires Valid(f.parameters) && i < |f.parameters.symbols|
    requires !HasName(f.locals.symbols, f.parameters.symbols[i].identifier)
    ensures Resolve(p, f, f.parameters.symbols[i].identifier) == Some(f.parameters.symbols[i])
  {
    GetUnique(f.parameters, i);
  }

  /** The position of the first function table carrying a name: what FunctionSymbolTable_get_from_name points to. */
  function FunctionIndex(fs: seq<FunctionTable>, n: Name): (r: Option<nat>)
    ensures r.Some? ==> r.value < |fs| && fs[r.value].identifier == n
    ensures r.Some? ==> forall j :: 0 <= j < r.value ==> fs[j].identifier != n
    ensures r.None? <==> forall j :: 0 <= j < |fs| ==> fs[j].identifier != n
  {
    if |fs| == 0 then None
    else if fs[0].identifier == n then Some(0)
    else
      match FunctionIndex(fs[1..], n)
      case None => None
      case Some(i) => Some(i + 1)
  }

  /** FunctionSymbolTable_get_from_name: a forward scan of the function tables. */
  method GetFromName(prog: ProgramTable, n: Name) returns (r: Option<nat>)
    ensures r == FunctionIndex(prog.functions, n)
  {
    var i := 0;
    while i < |prog.functions|
      invariant 0 <= i <= |prog.functions|
      invariant forall j :: 0 <= j < i ==> prog.functions[j].identifier != n
    {
      if prog.functions[i].identifier == n {
        return Some(i);
      }
      i := i + 1;
    }
    return None;
  }

  /**
   * FunctionSymbolTable_is_defined_before_use, which compares the two table
   * pointers inside the function array: the callee does not come after the
   * caller. A missing callee is the null pointer, which comes before any.
   */
  predicate DefinedBeforeUse(caller: nat, callee: Option<nat>): (ok: bool)
    ensures callee.None? ==> ok
    ensures callee.Some? && callee.value < caller ==> ok
    ensures callee == Some(caller) ==> ok
    ensures callee.Some? && caller < callee.value ==> !ok
  {
    callee.None? || callee.value <= caller
  }

  /** FunctionSymbolTable_get_param_count: the number of stored parameters. */
  function ParamCount(f: FunctionTable): (n: nat)
    ensures Valid(f.parameters) ==> forall i :: 0 <= i < |f.parameters.symbols| ==> f.parameters.symbols[i].index < n
    ensures Valid(f.parameters) ==> forall k :: 0 <= k < n ==> IndexUsed(f.parameters.symbols, k)
  {
    |f.parameters.symbols|
  }

  /** The first stored parameter with declaration index `i`, the one FunctionSymbolTable_get_param returns. */
  function ParamWithIndex(syms: seq<Symbol>, i: int): (r: Option<Symbol>)
    ensures r.Some? ==> r.value in syms && r.value.index == i
  {
    if |syms| == 0 then None
    else if syms[0].index == i then Some(syms[0])
    else ParamWithIndex(syms[1..], i)
  }

  /** No parameter is found for an index exactly when no stored parameter carries it. */
  lemma {:induction false} ParamWithIndexMissing(syms: seq<Symbol>, i: int)
    ensures ParamWithIndex(syms, i).None? <==> forall k :: 0 <= k < |syms| ==> syms[k].index != i
  {
    if |syms| > 0 {
      ParamWithIndexMissing(syms[1..], i);
      assert forall k :: 1 <= k < |syms| ==> syms[k] == syms[1..][k - 1];
    }
  }

  /** FunctionSymbolTable_get_param: a forward scan of the parameter buffer. */
  method GetParam(f: FunctionTable, i: int) returns (r: Option<Symbol>)
    ensures r == ParamWithIndex(f.parameters.symbols, i)
  {
    var syms := f.parameters.symbols;
    for j := 0 to |syms|
      invariant ParamWithIndex(syms, i) == ParamWithIndex(syms[j..], i)
    {
      assert syms[j..][1..] == syms[j + 1..];
      if syms[j].index == i {
        return Some(syms[j]);
      }
    }
    return None;
  }

  /** In a valid table the parameter of index `i` exists exactly when `i` is below the parameter count, and the symbol of each index is found. */
  lemma {:induction false} ParamIndexRange(f: FunctionTable, i: int)
    requires Valid(f.parameters)
    ensures ParamWithIndex(f.parameters.symbols, i).Some? <==> 0 <= i < ParamCount(f)
  {
    var syms := f.parameters.symbols;
    ParamWithIndexMissing(syms, i);
    if 0 <= i < |syms| {
      assert IndexUsed(syms, i);
      var k :| 0 <= k < |syms| && syms[k].index == i;
    }
  }

  /** A valid table's parameter is the one found for its own index. */
  lemma ParamOfOwnIndex(f: FunctionTable, k: nat)
    requires Valid(f.parameters) && k < |f.parameters.symbols|
    ensures ParamWithIndex(f.parameters.symbols, f.parameters.symbols[k].index) == Some(f.parameters.symbols[k])
  {
    var syms := f.parameters.symbols;
    ParamWithIndexMissing(syms, syms[k].index);
    var s := ParamWithIndex(syms, syms[k].index).value;
    var j :| 0 <= j < |syms| && syms[j] == s;
    assert j == k;
  }

  // ---------------------------------------------------------------------------
  // Lookups in the program the builder produces
  // ---------------------------------------------------------------------------

  /** A name held at position `k` and at no earlier position is found at `k`. */
  lemma {:induction false} FunctionIndexAt(fs: seq<FunctionTable>, n: Name, k: nat)
    requires k < |fs| && fs[k].identifier == n
    requires forall j :: 0 <= j < k ==> fs[j].identifier != n
    ensures FunctionIndex(fs, n) == Some(k)
  {
    if k > 0 {
      FunctionIndexAt(fs[1..], n, k - 1);
    }
  }

  /** The four default names differ from one another. */
  lemma BuiltinNamesDistinct(rev: Revision, i: nat, j: nat)
    requires i < j < 4
    ensures Builtins(rev)[i].name != Builtins(rev)[j].name
  {
    var a := Builtins(rev)[i].name;
    var b := Builtins(rev)[j].name;
    assert |a| != |b| || a[0] != b[0];
  }

  /** Each default function's name finds its own table, whatever the user declares afterwards. */
  lemma BuiltinsFound(rev: Revision, t: Prog, i: nat)
    requires WellFormed(t) && i < 4
    ensures FunctionIndex(ProgramOf(rev, t).functions, Builtins(rev)[i].name) == Some(i)
  {
    ProgramFunctions(rev, t);
    var fs := ProgramOf(rev, t).functions;
    var n := Builtins(rev)[i].name;
    forall j | 0 <= j < i ensures fs[j].identifier != n {
      BuiltinNamesDistinct(rev, j, i);
    }
    FunctionIndexAt(fs, n, i);
  }

  /** The default functions can be called from every declared function. */
  lemma BuiltinsCallable(rev: Revision, t: Prog, i: nat, k: nat)
    requires WellFormed(t) && i < 4 && k < |t.funcs|
    ensures DefinedBeforeUse(4 + k, FunctionIndex(ProgramOf(rev, t).functions, Builtins(rev)[i].name))
  {
    BuiltinsFound(rev, t, i);
  }

  /**
   * A declared function whose name no default and no earlier function has is
   * found at its own position, after the four defaults; in particular it may
   * call itself.
   */
  lemma DeclaredFound(rev: Revision, t: Prog, k: nat)
    requires WellFormed(t) && k < |t.funcs|
    requires forall i :: 0 <= i < 4 ==> Builtins(rev)[i].name != t.funcs[k].ident
    requires forall j :: 0 <= j < k ==> t.funcs[j].ident != t.funcs[k].ident
    ensures FunctionIndex(ProgramOf(rev, t).functions, t.funcs[k].ident) == Some(4 + k)
    ensures DefinedBeforeUse(4 + k, FunctionIndex(ProgramOf(rev, t).functions, t.funcs[k].ident))
  {
    ProgramFunctions(rev, t);
    var fs := ProgramOf(rev, t).functions;
    var n := t.funcs[k].ident;
    forall j | 0 <= j < 4 + k ensures fs[j].identifier != n {
      if j < 4 {
        assert fs[j].identifier == Builtins(rev)[j].name;
      } else {
        assert fs[j].identifier == t.funcs[j - 4].ident;
      }
    }
    FunctionIndexAt(fs, n, 4 + k);
  }

  /** A function declared later than the caller is not defined before use. */
  lemma LaterNotDefined(rev: Revision, t: Prog, k: nat, j: nat)
    requires WellFormed(t) && k < j < |t.funcs|
    requires forall i :: 0 <= i < 4 ==> Builtins(rev)[i].name != t.funcs[j].ident
    requires forall m :: 0 <= m < j ==> t.funcs[m].ident != t.funcs[j].ident
    ensures !DefinedBeforeUse(4 + k, FunctionIndex(ProgramOf(rev, t).functions, t.funcs[j].ident))
  {
    DeclaredFound(rev, t, j);
  }

  /** The parameter counts of the default functions: one for putchar and putint, none for getchar and getint. */
  lemma BuiltinParamCounts(rev: Revision)
    ensures ParamCount(DefaultTable(Builtins(rev)[0])) == 1
    ensures ParamCount(DefaultTable(Builtins(rev)[1])) == 1
    ensures ParamCount(DefaultTable(Builtins(rev)[2])) == 0
    ensures ParamCount(DefaultTable(Builtins(rev)[3])) == 0
  {
    var bs := Builtins(rev);
    forall i | 0 <= i < 4
      ensures ParamCount(DefaultTable(bs[i])) == |bs[i].params|
    {
      var ps := bs[i].params;
      assert ParamSymbols(ps) == if |ps| == 0 then [] else [ParamSymbol(ps[0])];
      if |ps| == 1 {
        assert [ParamSymbol(ps[0])] == [] + [ParamSymbol(ps[0])];
        AddAllSnoc(EmptyScope(Param), [], ParamSymbol(ps[0]));
        AddContents(EmptyScope(Param), ParamSymbol(ps[0]));
      }
    }
  }
}
