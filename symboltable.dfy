/**
 * Building the program table (ProgramSymbolTable_from_Prog and its helpers
 * in symboltable.c and symbolTable.c) and looking names up in it.
 */
module SymbolTable {
  import opened Wrappers
  import opened Symbols
  import opened Errors
  import opened Ast
  import opened Scopes
  import ArrayLists

  /** The two revisions of the builder; they differ in the declared return type of `putchar`. */
  datatype Revision = FileSymboltable | FileSymbolTable

  /** FunctionSymbolTable. */
  datatype FunctionTable = FunctionTable(identifier: Name, retType: Type, parameters: Scope, locals: Scope)

  /** ProgramSymbolTable: the global scope (variables and function symbols) and the functions in declaration order. */
  datatype Program = Program(globals: Scope, functions: seq<FunctionTable>)

  /** _get_type_from_string: the type a keyword names; the C code's -1 is None. */
  function TypeOfKeyword(kw: string): (t: Option<Type>)
    ensures t.Some? <==> KnownKeyword(kw)
    ensures t == Some(Byte) <==> kw == "char"
    ensures t == Some(Type.Num) <==> kw == "int"
  {
    if kw == "char" then Some(Byte) else if kw == "int" then Some(Type.Num) else None
  }

  /** _get_type_size: both value types take a 64-bit slot, `void` none. */
  function TypeSize(t: Type): (n: nat)
    ensures n == 0 <==> t == Void
    ensures n <= 8
  {
    if t == Void then 0 else 8
  }

  /** A symbol with only the named fields set, as a C compound literal leaves the others at zero. */
  function Blank(identifier: Name, ty: Type, kind: SymbolKind, totalSize: int): Symbol {
    Symbol(identifier, ty, TypeSize(ty), kind, false, 0, false, false, false, totalSize, 0, 0, false, None)
  }

  /**
   * The symbol _SymbolTable_create_from_Type builds for one declarator: an
   * array parameter decays to an 8-byte pointer; a sized array takes its
   * length times the element size and is static at global scope; a plain
   * name takes one element and is static at global scope.
   */
  function DeclSymbol(kind: TableKind, head: TypeLabel, ty: Type, d: Declarator): (s: Symbol)
    ensures s.identifier == d.ident && s.ty == ty && s.typeSize == TypeSize(ty)
    ensures s.totalSize >= 0 && !s.isParam && !s.isDefaultFunction && !s.onRegister
    ensures s.kind == (if head == TypeKw && d.IdentDecl? then Value else Array)
    ensures head == DeclFonctArray ==> !s.hasLength && !s.isStatic && s.totalSize == 8
    ensures head == TypeKw ==> (s.isStatic <==> kind == Global) && (s.hasLength <==> d.DeclArray?)
    ensures head == TypeKw && d.DeclArray? ==> s.length == d.length && s.totalSize == d.length * TypeSize(ty)
    ensures head == TypeKw && d.IdentDecl? ==> s.totalSize == TypeSize(ty)
  {
    match head
    case DeclFonctArray => Blank(d.ident, ty, Array, 8)
    case TypeKw =>
      match d
      case DeclArray(n, length) =>
        Blank(n, ty, Array, length * TypeSize(ty)).(hasLength := true, length := length, isStatic := kind == Global)
      case IdentDecl(n) => Blank(n, ty, Value, TypeSize(ty)).(isStatic := kind == Global)
  }

  /** The symbols one type node declares, in source order. */
  function NodeSymbols(kind: TableKind, tn: TypeNode): (syms: seq<Symbol>)
    requires KnownKeyword(tn.keyword)
    ensures |syms| == |tn.declarators|
    ensures forall j :: 0 <= j < |syms| ==> syms[j].identifier == tn.declarators[j].ident
  {
    var ty := TypeOfKeyword(tn.keyword).value;
    seq(|tn.declarators|, j requires 0 <= j < |tn.declarators| => DeclSymbol(kind, tn.head, ty, tn.declarators[j]))
  }

  /** _SymbolTable_add applied to each symbol in turn, the diagnostics ORed together. */
  function AddAll(sc: Scope, syms: seq<Symbol>): (r: (Scope, ErrorSet))
    ensures r.1 <= {SemRedeclaredSymbol}
    ensures r.0.kind == sc.kind
    decreases |syms|
  {
    if |syms| == 0 then (sc, {})
    else
      var r1 := AddAll(sc, syms[..|syms| - 1]);
      var r2 := ScopeAdd(r1.0, syms[|syms| - 1]);
      (r2.0, r1.1 + r2.1)
  }

  /** The symbols of each type node of a chain added in turn. */
  function AddNodes(sc: Scope, tns: seq<TypeNode>): (r: (Scope, ErrorSet))
    requires WellTyped(tns)
    ensures r.1 <= {SemRedeclaredSymbol}
    ensures r.0.kind == sc.kind
    decreases |tns|
  {
    if |tns| == 0 then (sc, {})
    else
      var r1 := AddNodes(sc, tns[..|tns| - 1]);
      var r2 := AddAll(r1.0, NodeSymbols(sc.kind, tns[|tns| - 1]));
      (r2.0, r1.1 + r2.1)
  }

  /** ERR_ARRAY_ZERO_SIZE for each zero-length array among the declarators of an ordinary type node. */
  function ZeroErrs(head: TypeLabel, ds: seq<Declarator>): ErrorSet
    decreases |ds|
  {
    if |ds| == 0 then {}
    else
      var d := ds[|ds| - 1];
      ZeroErrs(head, ds[..|ds| - 1]) + (if head == TypeKw && d.DeclArray? && d.length == 0 then {ArrayZeroSize} else {})
  }

  function TypesZeroErrs(tns: seq<TypeNode>): ErrorSet
    decreases |tns|
  {
    if |tns| == 0 then {}
    else TypesZeroErrs(tns[..|tns| - 1]) + ZeroErrs(tns[|tns| - 1].head, tns[|tns| - 1].declarators)
  }

  /**
   * The diagnostics of _SymbolTable_create_from_Type over a chain of type
   * nodes: the redeclarations of the adds and the zero-size arrays. The table
   * it leaves is AddNodes(sc, tns).0.
   */
  function DeclErrs(sc: Scope, tns: seq<TypeNode>): ErrorSet
    requires WellTyped(tns)
  {
    AddNodes(sc, tns).1 + TypesZeroErrs(tns)
  }

  /** A zero-size array with a declared length. */
  predicate ZeroArray(tn: TypeNode, d: Declarator) {
    tn.head == TypeKw && d.DeclArray? && d.length == 0
  }

  lemma {:induction false} ZeroErrsIff(head: TypeLabel, ds: seq<Declarator>)
    ensures ZeroErrs(head, ds) <= {ArrayZeroSize}
    ensures ArrayZeroSize in ZeroErrs(head, ds) <==>
      head == TypeKw && exists j :: 0 <= j < |ds| && ds[j].DeclArray? && ds[j].length == 0
    decreases |ds|
  {
    if |ds| > 0 {
      var ds' := ds[..|ds| - 1];
      ZeroErrsIff(head, ds');
      assert forall j :: 0 <= j < |ds'| ==> ds'[j] == ds[j];
    }
  }

  /** The diagnostics of a declaration list are redeclarations and zero-size arrays, the latter exactly when one is declared. */
  lemma {:induction false} DeclErrsKinds(sc: Scope, tns: seq<TypeNode>)
    requires WellTyped(tns)
    ensures DeclErrs(sc, tns) <= {SemRedeclaredSymbol, ArrayZeroSize}
    ensures ArrayZeroSize in DeclErrs(sc, tns) <==>
      exists i, j :: 0 <= i < |tns| && 0 <= j < |tns[i].declarators| && ZeroArray(tns[i], tns[i].declarators[j])
  {
    TypesZeroErrsIff(tns);
  }

  lemma {:induction false} TypesZeroErrsIff(tns: seq<TypeNode>)
    ensures TypesZeroErrs(tns) <= {ArrayZeroSize}
    ensures ArrayZeroSize in TypesZeroErrs(tns) <==>
      exists i, j :: 0 <= i < |tns| && 0 <= j < |tns[i].declarators| && ZeroArray(tns[i], tns[i].declarators[j])
    decreases |tns|
  {
    if |tns| > 0 {
      var n := |tns| - 1;
      var tns' := tns[..n];
      TypesZeroErrsIff(tns');
      ZeroErrsIff(tns[n].head, tns[n].declarators);
      assert forall i :: 0 <= i < n ==> tns'[i] == tns[i];
      if ArrayZeroSize in TypesZeroErrs(tns) && ArrayZeroSize !in TypesZeroErrs(tns') {
        var j :| 0 <= j < |tns[n].declarators| && tns[n].declarators[j].DeclArray? && tns[n].declarators[j].length == 0;
        assert ZeroArray(tns[n], tns[n].declarators[j]);
      }
    }
  }

  lemma AddAllSnoc(sc: Scope, syms: seq<Symbol>, x: Symbol)
    ensures AddAll(sc, syms + [x]).0 == ScopeAdd(AddAll(sc, syms).0, x).0
    ensures AddAll(sc, syms + [x]).1 == AddAll(sc, syms).1 + ScopeAdd(AddAll(sc, syms).0, x).1
  {
    assert (syms + [x])[..|syms|] == syms;
  }

  lemma ZeroErrsSnoc(head: TypeLabel, ds: seq<Declarator>, j: nat)
    requires j < |ds|
    ensures ZeroErrs(head, ds[..j + 1]) ==
      ZeroErrs(head, ds[..j]) + (if head == TypeKw && ds[j].DeclArray? && ds[j].length == 0 then {ArrayZeroSize} else {})
  {
    assert ds[..j + 1][..j] == ds[..j];
  }

  /** One more type node: the chain's fold takes the node's symbols. */
  lemma NodesStep(sc: Scope, tns: seq<TypeNode>, i: nat)
    requires WellTyped(tns) && i < |tns|
    ensures WellTyped(tns[..i]) && WellTyped(tns[..i + 1])
    ensures var r := AddNodes(sc, tns[..i]);
      var a := AddAll(r.0, NodeSymbols(sc.kind, tns[i]));
      AddNodes(sc, tns[..i + 1]).0 == a.0 && AddNodes(sc, tns[..i + 1]).1 == r.1 + a.1
    ensures TypesZeroErrs(tns[..i + 1]) == TypesZeroErrs(tns[..i]) + ZeroErrs(tns[i].head, tns[i].declarators)
  {
    assert tns[..i + 1][..i] == tns[..i];
  }

  /** One more declarator of a type node: the fold takes one more _SymbolTable_add step. */
  lemma NodeStep(sc: Scope, tn: TypeNode, j: nat)
    requires KnownKeyword(tn.keyword) && j < |tn.declarators|
    ensures var node := NodeSymbols(sc.kind, tn);
      var sym := DeclSymbol(sc.kind, tn.head, TypeOfKeyword(tn.keyword).value, tn.declarators[j]);
      var r := AddAll(sc, node[..j]);
      AddAll(sc, node[..j + 1]).0 == ScopeAdd(r.0, sym).0 &&
      AddAll(sc, node[..j + 1]).1 == r.1 + ScopeAdd(r.0, sym).1
  {
    var node := NodeSymbols(sc.kind, tn);
    assert node[..j + 1] == node[..j] + [node[j]];
    AddAllSnoc(sc, node[..j], node[j]);
  }

  /** The inner loop of _SymbolTable_create_from_Type: the declarators of one type node. */
  method AddTypeNode(t: ScopeTable, tn: TypeNode) returns (err: ErrorSet)
    requires KnownKeyword(tn.keyword)
    modifies t
    ensures t.View() == AddAll(old(t.View()), NodeSymbols(old(t.kind), tn)).0
    ensures err == AddAll(old(t.View()), NodeSymbols(old(t.kind), tn)).1 + ZeroErrs(tn.head, tn.declarators)
  {
    ghost var sc := t.View();
    ghost var node := NodeSymbols(sc.kind, tn);
    var ty := TypeOfKeyword(tn.keyword).value;
    err := {};
    var j := 0;
    while j < |tn.declarators|
      invariant 0 <= j <= |tn.declarators| && t.kind == sc.kind
      invariant t.View() == AddAll(sc, node[..j]).0
      invariant err == AddAll(sc, node[..j]).1 + ZeroErrs(tn.head, tn.declarators[..j])
    {
      var d := tn.declarators[j];
      if tn.head == TypeKw && d.DeclArray? && d.length == 0 {
        err := err + {ArrayZeroSize};
      }
      var sym := DeclSymbol(t.kind, tn.head, ty, d);
      NodeStep(sc, tn, j);
      ZeroErrsSnoc(tn.head, tn.declarators, j);
      var e := t.Add(sym);
      err := err + e;
      j := j + 1;
    }
    assert node[..j] == node && tn.declarators[..j] == tn.declarators;
  }

  /** _SymbolTable_create_from_Type: every declarator of every type node in the chain, in order. */
  method CreateFromType(t: ScopeTable, tns: seq<TypeNode>) returns (err: ErrorSet)
    requires |tns| > 0 && WellTyped(tns)
    modifies t
    ensures t.View() == AddNodes(old(t.View()), tns).0
    ensures err == DeclErrs(old(t.View()), tns)
  {
    ghost var sc := t.View();
    err := {};
    var i := 0;
    while i < |tns|
      invariant 0 <= i <= |tns| && t.kind == sc.kind
      invariant WellTyped(tns[..i])
      invariant t.View() == AddNodes(sc, tns[..i]).0
      invariant err == AddNodes(sc, tns[..i]).1 + TypesZeroErrs(tns[..i])
    {
      NodesStep(sc, tns, i);
      var e := AddTypeNode(t, tns[i]);
      err := err + e;
      i := i + 1;
    }
    assert tns[..i] == tns;
  }

  /**
   * SymbolTable_create_from_DeclVars: the table's address counter starts at
   * `offset`, then the declarations, if any, are added.
   */
  method CreateFromDeclVars(t: ScopeTable, offset: int, tns: seq<TypeNode>) returns (err: ErrorSet)
    requires WellTyped(tns)
    modifies t
    ensures t.View() == AddNodes(old(t.View()).(nextAddr := offset), tns).0
    ensures err == DeclErrs(old(t.View()).(nextAddr := offset), tns)
  {
    ghost var sc := t.View();
    t.nextAddr := offset;
    assert t.View() == sc.(nextAddr := offset);
    if |tns| == 0 {
      return {};
    }
    err := CreateFromType(t, tns);
  }
  /** An arbitrary run of adds keeps a table valid. */
  lemma {:induction false} AddAllKeepsValid(sc: Scope, syms: seq<Symbol>)
    requires Valid(sc)
    ensures Valid(AddAll(sc, syms).0)
    decreases |syms|
  {
    if |syms| > 0 {
      var syms' := syms[..|syms| - 1];
      AddAllKeepsValid(sc, syms');
      AddKeepsValid(AddAll(sc, syms').0, syms[|syms| - 1]);
    }
  }

  /** A run of adds of non-negative sizes keeps the layout. */
  lemma {:induction false} AddAllKeepsLaid(sc: Scope, syms: seq<Symbol>, floor: int)
    requires Laid(sc, floor) && forall i :: 0 <= i < |syms| ==> syms[i].totalSize >= 0
    ensures Laid(AddAll(sc, syms).0, floor)
    decreases |syms|
  {
    if |syms| > 0 {
      var syms' := syms[..|syms| - 1];
      AddAllKeepsLaid(sc, syms', floor);
      AddKeepsLaid(AddAll(sc, syms').0, syms[|syms| - 1], floor);
    }
  }

  /** After a run of adds a name is held exactly when it was held before or one of the added symbols carries it. */
  lemma {:induction false} AddAllNames(sc: Scope, syms: seq<Symbol>, n: Name)
    ensures HasName(AddAll(sc, syms).0.symbols, n) <==>
      HasName(sc.symbols, n) || exists i :: 0 <= i < |syms| && syms[i].identifier == n
    decreases |syms|
  {
    if |syms| > 0 {
      var syms' := syms[..|syms| - 1];
      AddAllNames(sc, syms', n);
      AddNames(AddAll(sc, syms').0, syms[|syms| - 1], n);
      assert forall i :: 0 <= i < |syms'| ==> syms'[i] == syms[i];
    }
  }

  /**
   * A run of adds reports a redeclaration exactly when some symbol's name was
   * already held or was carried by an earlier symbol of the run.
   */
  lemma {:induction false} AddAllRedeclared(sc: Scope, syms: seq<Symbol>)
    ensures SemRedeclaredSymbol in AddAll(sc, syms).1 <==>
      exists i :: 0 <= i < |syms| && Clashes(sc, syms, i)
    decreases |syms|
  {
    if |syms| > 0 {
      var n := |syms| - 1;
      var syms' := syms[..n];
      AddAllRedeclared(sc, syms');
      ClashesPrefix(sc, syms);
      LastClashes(sc, syms);
      if exists i :: 0 <= i < |syms| && Clashes(sc, syms, i) {
        var i :| 0 <= i < |syms| && Clashes(sc, syms, i);
        if i < n { assert Clashes(sc, syms', i); }
      }
      if SemRedeclaredSymbol in AddAll(sc, syms).1 {
        if SemRedeclaredSymbol in AddAll(sc, syms').1 {
          var i :| 0 <= i < n && Clashes(sc, syms', i);
          assert Clashes(sc, syms, i);
        } else {
          assert Clashes(sc, syms, n);
        }
      }
    }
  }

  /** Dropping the last symbol does not change whether an earlier one clashes. */
  lemma ClashesPrefix(sc: Scope, syms: seq<Symbol>)
    requires |syms| > 0
    ensures forall i :: 0 <= i < |syms| - 1 ==> (Clashes(sc, syms[..|syms| - 1], i) <==> Clashes(sc, syms, i))
  {
    var syms' := syms[..|syms| - 1];
    forall i | 0 <= i < |syms'| ensures Clashes(sc, syms', i) <==> Clashes(sc, syms, i) {
      assert syms'[i] == syms[i];
      assert forall j :: 0 <= j < i ==> syms'[j] == syms[j];
    }
  }

  /** The last add of a run reports a redeclaration exactly when the last symbol clashes. */
  lemma LastClashes(sc: Scope, syms: seq<Symbol>)
    requires |syms| > 0
    ensures SemRedeclaredSymbol in ScopeAdd(AddAll(sc, syms[..|syms| - 1]).0, syms[|syms| - 1]).1 <==>
      Clashes(sc, syms, |syms| - 1)
  {
    var n := |syms| - 1;
    var syms' := syms[..n];
    AddAllNames(sc, syms', syms[n].identifier);
    assert forall j :: 0 <= j < n ==> syms'[j] == syms[j];
  }

  /** The i-th symbol's name was held beforehand or carried by an earlier symbol. */
  predicate Clashes(sc: Scope, syms: seq<Symbol>, i: nat)
    requires i < |syms|
  {
    HasName(sc.symbols, syms[i].identifier) || exists j :: 0 <= j < i && syms[j].identifier == syms[i].identifier
  }

  /** Every symbol a declaration list produces has a non-negative size. */
  lemma NodeSizes(kind: TableKind, tn: TypeNode)
    requires KnownKeyword(tn.keyword)
    ensures forall i :: 0 <= i < |NodeSymbols(kind, tn)| ==> NodeSymbols(kind, tn)[i].totalSize >= 0
  {
  }

  /** Building from declarations keeps a table valid. */
  lemma {:induction false} AddNodesKeepsValid(sc: Scope, tns: seq<TypeNode>)
    requires WellTyped(tns) && Valid(sc)
    ensures Valid(AddNodes(sc, tns).0)
    decreases |tns|
  {
    if |tns| > 0 {
      var tns' := tns[..|tns| - 1];
      assert WellTyped(tns');
      AddNodesKeepsValid(sc, tns');
      AddAllKeepsValid(AddNodes(sc, tns').0, NodeSymbols(sc.kind, tns[|tns| - 1]));
    }
  }

  /** Building from declarations keeps the layout. */
  lemma {:induction false} AddNodesKeepsLaid(sc: Scope, tns: seq<TypeNode>, floor: int)
    requires WellTyped(tns) && Laid(sc, floor)
    ensures Laid(AddNodes(sc, tns).0, floor)
    decreases |tns|
  {
    if |tns| > 0 {
      var tns' := tns[..|tns| - 1];
      assert WellTyped(tns');
      AddNodesKeepsLaid(sc, tns', floor);
      NodeSizes(sc.kind, tns[|tns| - 1]);
      AddAllKeepsLaid(AddNodes(sc, tns').0, NodeSymbols(sc.kind, tns[|tns| - 1]), floor);
    }
  }

  // ---------------------------------------------------------------------------
  // Function tables (_SymbolTable_create_from_DeclFonct and its helpers)
  // ---------------------------------------------------------------------------

  /** The return type of a function header: `void`, or the type its keyword names. */
  function RetType(d: DeclFonct): (t: Type)
    requires d.retKeyword.Some? ==> KnownKeyword(d.retKeyword.value)
    ensures t == Void <==> d.retKeyword.None?
    ensures d.retKeyword.Some? ==> Some(t) == TypeOfKeyword(d.retKeyword.value)
  {
    match d.retKeyword
    case None => Void
    case Some(kw) => TypeOfKeyword(kw).value
  }

  /** The symbol a user function contributes to the global scope: static, of its return type, occupying nothing. */
  function FunctionSymbol(identifier: Name, ret: Type): (s: Symbol)
    ensures s.identifier == identifier && s.kind == Function && s.ty == ret && s.isStatic
    ensures s.totalSize == 0 && s.typeSize == TypeSize(ret) && !s.isDefaultFunction
  {
    Blank(identifier, ret, Function, 0).(isStatic := true)
  }

  /** The type nodes of a parameter list; `void` declares none. */
  function ParamDecls(ps: ParamList): seq<TypeNode> {
    match ps
    case VoidParams => []
    case ListTypVar(types) => types
  }

  /** The parameter table of a function: its parameter declarations added to an empty parameter scope. */
  function ParamsOf(d: DeclFonct): (sc: Scope)
    requires WellFormedFonct(d)
  {
    AddNodes(EmptyScope(Param), ParamDecls(d.params)).0
  }

  /** An empty local table whose address counter starts at `offset`. */
  function LocalScope(offset: int): Scope {
    EmptyScope(Local).(nextAddr := offset)
  }

  /** The local table: its declarations added to an empty local scope whose counter starts past the parameters. */
  function LocalsOf(d: DeclFonct): (sc: Scope)
    requires WellFormedFonct(d)
  {
    AddNodes(LocalScope(ParamsOf(d).nextAddr), d.locals).0
  }

  /** The table a function declaration produces; it does not depend on the global scope. */
  function FunctionTableOf(d: DeclFonct): (f: FunctionTable)
    requires WellFormedFonct(d)
    ensures f.identifier == d.ident && f.retType == RetType(d)
    ensures f.parameters.kind == Param && f.locals.kind == Local
  {
    FunctionTable(d.ident, RetType(d), ParamsOf(d), LocalsOf(d))
  }

  /** _SymbolTable_check_redeclared_params_in_locals over a prefix of the local symbols. */
  function ShadowErrs(locals: seq<Symbol>, params: Scope): ErrorSet
    decreases |locals|
  {
    if |locals| == 0 then {}
    else
      ShadowErrs(locals[..|locals| - 1], params) +
      (if Get(params, locals[|locals| - 1].identifier).Some? then {SemRedeclaredSymbol} else {})
  }

  /** A redeclaration is reported exactly when some local carries a parameter's name, and nothing else is. */
  lemma {:induction false} ShadowErrsIff(locals: seq<Symbol>, params: Scope)
    ensures ShadowErrs(locals, params) <= {SemRedeclaredSymbol}
    ensures SemRedeclaredSymbol in ShadowErrs(locals, params) <==>
      exists i :: 0 <= i < |locals| && HasName(params.symbols, locals[i].identifier)
    decreases |locals|
  {
    if |locals| > 0 {
      var n := |locals| - 1;
      var pre := locals[..n];
      ShadowErrsIff(pre, params);
      assert forall i :: 0 <= i < n ==> pre[i] == locals[i];
      if exists i :: 0 <= i < |locals| && HasName(params.symbols, locals[i].identifier) {
        var i :| 0 <= i < |locals| && HasName(params.symbols, locals[i].identifier);
        if i < n {
          assert HasName(params.symbols, pre[i].identifier);
        }
      }
    }
  }

  /** _SymbolTable_check_redeclared_params_in_locals: one lookup in the parameters per local. */
  method CheckRedeclaredParamsInLocals(ls: ScopeTable, ps: ScopeTable) returns (err: ErrorSet)
    ensures err == ShadowErrs(ls.symbols, ps.View())
  {
    err := {};
    var i := 0;
    while i < |ls.symbols|
      invariant 0 <= i <= |ls.symbols|
      invariant err == ShadowErrs(ls.symbols[..i], ps.View())
    {
      assert ls.symbols[..i + 1][..i] == ls.symbols[..i];
      if Get(ps.View(), ls.symbols[i].identifier).Some? {
        err := err + {SemRedeclaredSymbol};
      }
      i := i + 1;
    }
    assert ls.symbols[..i] == ls.symbols;
  }

  /** The diagnostics of filling a function's own tables. */
  function TablesErrs(d: DeclFonct): ErrorSet
    requires WellFormedFonct(d)
  {
    DeclErrs(EmptyScope(Param), ParamDecls(d.params)) +
    DeclErrs(LocalScope(ParamsOf(d).nextAddr), d.locals) +
    ShadowErrs(LocalsOf(d).symbols, ParamsOf(d))
  }

  /** The diagnostics _SymbolTable_create_from_DeclFonct ORs together, given the global scope before the declaration. */
  function FunctionErrs(g: Scope, d: DeclFonct): ErrorSet
    requires WellFormedFonct(d)
  {
    ScopeAdd(g, FunctionSymbol(d.ident, RetType(d))).1 + TablesErrs(d)
  }

  /**
   * The part of _SymbolTable_create_from_DeclFonct after _FunctionSymbolTable_init:
   * fresh parameter and local tables are filled, the local counter starting
   * where the parameters' stopped, and locals named like a parameter are reported.
   */
  method FillTables(d: DeclFonct) returns (ps: ScopeTable, ls: ScopeTable, err: ErrorSet)
    requires WellFormedFonct(d)
    ensures fresh(ps) && fresh(ls)
    ensures ps.View() == ParamsOf(d) && ls.View() == LocalsOf(d)
    ensures err == TablesErrs(d)
  {
    ps := new ScopeTable(Param);
    ls := new ScopeTable(Local);
    var e1 := {};
    if d.params.ListTypVar? {
      e1 := CreateFromType(ps, d.params.types);
    }
    var e2 := CreateFromDeclVars(ls, ps.nextAddr, d.locals);
    var e3 := CheckRedeclaredParamsInLocals(ls, ps);
    err := e1 + e2 + e3;
  }

  /** _SymbolTable_create_from_DeclFonct: the function symbol joins the global table `g`, then the function's own tables are filled. */
  method CreateFromDeclFonct(g: ScopeTable, d: DeclFonct) returns (f: FunctionTable, err: ErrorSet)
    requires WellFormedFonct(d)
    modifies g
    ensures g.View() == ScopeAdd(old(g.View()), FunctionSymbol(d.ident, RetType(d))).0
    ensures f == FunctionTableOf(d)
    ensures err == FunctionErrs(old(g.View()), d)
  {
    var ret := RetType(d);
    var e0 := g.Add(FunctionSymbol(d.ident, ret));
    var ps, ls, e1 := FillTables(d);
    err := e0 + e1;
    f := FunctionTable(d.ident, ret, ps.View(), ls.View());
  }

  /** The diagnostics of one function are redeclarations and zero-size arrays. */
  lemma FunctionErrsKinds(g: Scope, d: DeclFonct)
    requires WellFormedFonct(d)
    ensures FunctionErrs(g, d) <= {SemRedeclaredSymbol, ArrayZeroSize}
  {
    DeclErrsKinds(EmptyScope(Param), ParamDecls(d.params));
    DeclErrsKinds(LocalScope(ParamsOf(d).nextAddr), d.locals);
    ShadowErrsIff(LocalsOf(d).symbols, ParamsOf(d));
  }

  /**
   * Both tables of a function are valid; the parameters are laid out from 0
   * and the locals from the end of the parameters, so no local overlaps a
   * parameter copied from a register.
   */
  lemma FunctionTableLaid(d: DeclFonct)
    requires WellFormedFonct(d)
    ensures Valid(ParamsOf(d)) && Valid(LocalsOf(d))
    ensures Laid(ParamsOf(d), 0) && Laid(LocalsOf(d), ParamsOf(d).nextAddr)
  {
    var e := EmptyScope(Param);
    AddNodesKeepsValid(e, ParamDecls(d.params));
    NothingStoredIsLaid(e, 0);
    AddNodesKeepsLaid(e, ParamDecls(d.params), 0);
    var l := LocalScope(ParamsOf(d).nextAddr);
    AddNodesKeepsValid(l, d.locals);
    NothingStoredIsLaid(l, l.nextAddr);
    AddNodesKeepsLaid(l, d.locals, l.nextAddr);
  }

  /** Every stored local lies strictly below every parameter held in the callee's frame. */
  lemma LocalsBelowParams(d: DeclFonct, a: Symbol, b: Symbol)
    requires WellFormedFonct(d)
    requires a in LocalsOf(d).symbols && Storage(a)
    requires b in ParamsOf(d).symbols && Storage(b) && b.index < 6
    ensures a.addr + a.totalSize <= b.addr
  {
    FunctionTableLaid(d);
  }

  // ---------------------------------------------------------------------------
  // Default functions and the whole program (ProgramSymbolTable_from_Prog)
  // ---------------------------------------------------------------------------

  /** A hard-coded function: its name, return type and parameters (name and type). */
  datatype Builtin = Builtin(name: Name, ret: Type, params: seq<(Name, Type)>)

  /**
   * _SymbolTable_add_default_functions: putchar, putint, getchar, getint, in
   * that order. The earlier revision declares putchar returning `int`, the
   * later one `void`.
   */
  function Builtins(rev: Revision): (bs: seq<Builtin>)
    ensures |bs| == 4
    ensures bs[0].name == "putchar" && bs[1].name == "putint"
    ensures bs[2].name == "getchar" && bs[3].name == "getint"
    ensures bs[0].ret == Void <==> rev == FileSymbolTable
    ensures bs[1].ret == Void && bs[2].ret == Byte && bs[3].ret == Type.Num
  {
    [ Builtin("putchar", if rev == FileSymboltable then Type.Num else Void, [("character", Byte)]),
      Builtin("putint", Void, [("number", Type.Num)]),
      Builtin("getchar", Byte, []),
      Builtin("getint", Type.Num, []) ]
  }

  /** The global symbol of a default function: static, flagged as default, one element of its return type. */
  function DefaultSymbol(b: Builtin): (s: Symbol)
    ensures s.identifier == b.name && s.kind == Function && s.ty == b.ret
    ensures s.isStatic && s.isDefaultFunction && s.totalSize == TypeSize(b.ret)
  {
    Blank(b.name, b.ret, Function, TypeSize(b.ret)).(isStatic := true, isDefaultFunction := true)
  }

  /** A default function's parameter: a value passed by copy, one element of its type. */
  function ParamSymbol(p: (Name, Type)): (s: Symbol)
    ensures s.identifier == p.0 && s.ty == p.1 && s.kind == Value && s.isParam
    ensures s.totalSize == TypeSize(p.1) >= 0
  {
    Blank(p.0, p.1, Value, TypeSize(p.1)).(isParam := true)
  }

  function ParamSymbols(ps: seq<(Name, Type)>): (syms: seq<Symbol>)
    ensures |syms| == |ps|
    decreases |ps|
  {
    if |ps| == 0 then [] else ParamSymbols(ps[..|ps| - 1]) + [ParamSymbol(ps[|ps| - 1])]
  }

  /** The table of a default function: its parameters added to an empty parameter scope, no locals. */
  function DefaultTable(b: Builtin): (f: FunctionTable)
    ensures f.identifier == b.name && f.retType == b.ret && f.locals == EmptyScope(Local)
  {
    FunctionTable(b.name, b.ret, AddAll(EmptyScope(Param), ParamSymbols(b.params)).0, EmptyScope(Local))
  }

  /** The global scope after ProgramSymbolTable_add_default_function for each default in turn (its diagnostics are dropped). */
  function AddDefaults(g: Scope, bs: seq<Builtin>): (r: Scope)
    ensures r.kind == g.kind
    decreases |bs|
  {
    if |bs| == 0 then g else ScopeAdd(AddDefaults(g, bs[..|bs| - 1]), DefaultSymbol(bs[|bs| - 1])).0
  }

  /** The tables ProgramSymbolTable_add_default_function appends, one per default, in order. */
  function DefaultTables(bs: seq<Builtin>): (fs: seq<FunctionTable>)
    ensures |fs| == |bs|
    decreases |bs|
  {
    if |bs| == 0 then [] else DefaultTables(bs[..|bs| - 1]) + [DefaultTable(bs[|bs| - 1])]
  }

  lemma {:induction false} DefaultTablesAt(bs: seq<Builtin>, i: nat)
    requires i < |bs|
    ensures DefaultTables(bs)[i] == DefaultTable(bs[i])
    decreases |bs|
  {
    var pre := bs[..|bs| - 1];
    if i < |pre| {
      DefaultTablesAt(pre, i);
      assert pre[i] == bs[i];
    }
  }

  predicate WellFormedFoncts(ds: seq<DeclFonct>) {
    forall i :: 0 <= i < |ds| ==> WellFormedFonct(ds[i])
  }

  /** The global scope after _ProgramSymbolTable_from_DeclFoncts: each function's symbol added in turn. */
  function AddFoncts(g: Scope, ds: seq<DeclFonct>): (r: Scope)
    requires WellFormedFoncts(ds)
    ensures r.kind == g.kind
    decreases |ds|
  {
    if |ds| == 0 then g
    else
      var d := ds[|ds| - 1];
      ScopeAdd(AddFoncts(g, ds[..|ds| - 1]), FunctionSymbol(d.ident, RetType(d))).0
  }

  /** The tables _ProgramSymbolTable_from_DeclFoncts appends, one per declaration, in order, even on error. */
  function FonctTables(ds: seq<DeclFonct>): (fs: seq<FunctionTable>)
    requires WellFormedFoncts(ds)
    ensures |fs| == |ds|
    decreases |ds|
  {
    if |ds| == 0 then [] else FonctTables(ds[..|ds| - 1]) + [FunctionTableOf(ds[|ds| - 1])]
  }

  lemma {:induction false} FonctTablesAt(ds: seq<DeclFonct>, i: nat)
    requires WellFormedFoncts(ds) && i < |ds|
    ensures FonctTables(ds)[i] == FunctionTableOf(ds[i])
    decreases |ds|
  {
    var pre := ds[..|ds| - 1];
    assert WellFormedFoncts(pre) by {
      forall k | 0 <= k < |pre| ensures WellFormedFonct(pre[k]) {
        assert pre[k] == ds[k];
      }
    }
    var fs, last := FonctTables(pre), FunctionTableOf(ds[|ds| - 1]);
    assert FonctTables(ds) == fs + [last];
    if i < |pre| {
      FonctTablesAt(pre, i);
      assert (fs + [last])[i] == fs[i];
      assert pre[i] == ds[i];
    } else {
      assert (fs + [last])[i] == last;
    }
  }

  /** The diagnostics of _ProgramSymbolTable_from_DeclFoncts, given the global scope before it. */
  function FonctsErrs(g: Scope, ds: seq<DeclFonct>): ErrorSet
    requires WellFormedFoncts(ds)
    decreases |ds|
  {
    if |ds| == 0 then {}
    else
      var pre := ds[..|ds| - 1];
      FonctsErrs(g, pre) + FunctionErrs(AddFoncts(g, pre), ds[|ds| - 1])
  }

  /** The global scope with the default functions in place, before the global declarations. */
  function DefaultGlobals(rev: Revision): Scope {
    AddDefaults(EmptyScope(Global), Builtins(rev))
  }

  /** The global scope after the global declarations, whose addresses start again at 0. */
  function WithGlobals(rev: Revision, t: Prog): Scope
    requires WellFormed(t)
  {
    AddNodes(DefaultGlobals(rev).(nextAddr := 0), t.globals).0
  }

  /** ProgramSymbolTable_from_Prog: the table it builds. */
  function ProgramOf(rev: Revision, t: Prog): Program
    requires WellFormed(t)
  {
    Program(AddFoncts(WithGlobals(rev, t), t.funcs), DefaultTables(Builtins(rev)) + FonctTables(t.funcs))
  }

  /** ProgramSymbolTable_from_Prog: the diagnostics it returns (those of the default functions are dropped). */
  function ProgramErrs(rev: Revision, t: Prog): ErrorSet
    requires WellFormed(t)
  {
    DeclErrs(DefaultGlobals(rev).(nextAddr := 0), t.globals) + FonctsErrs(WithGlobals(rev, t), t.funcs)
  }

  /** One more declaration: the global scope takes one more _SymbolTable_add step. */
  lemma FonctsStep(g: Scope, ds: seq<DeclFonct>, i: nat)
    requires WellFormedFoncts(ds) && i < |ds|
    ensures WellFormedFoncts(ds[..i]) && WellFormedFoncts(ds[..i + 1])
    ensures AddFoncts(g, ds[..i + 1]) == ScopeAdd(AddFoncts(g, ds[..i]), FunctionSymbol(ds[i].ident, RetType(ds[i]))).0
  {
    assert ds[..i + 1][..i] == ds[..i];
  }

  lemma FonctTablesStep(ds: seq<DeclFonct>, i: nat)
    requires WellFormedFoncts(ds) && i < |ds|
    ensures WellFormedFoncts(ds[..i]) && WellFormedFoncts(ds[..i + 1])
    ensures FonctTables(ds[..i + 1]) == FonctTables(ds[..i]) + [FunctionTableOf(ds[i])]
  {
    assert ds[..i + 1][..i] == ds[..i];
  }

  lemma FonctsErrsStep(g: Scope, ds: seq<DeclFonct>, i: nat)
    requires WellFormedFoncts(ds) && i < |ds|
    ensures WellFormedFoncts(ds[..i]) && WellFormedFoncts(ds[..i + 1])
    ensures FonctsErrs(g, ds[..i + 1]) == FonctsErrs(g, ds[..i]) + FunctionErrs(AddFoncts(g, ds[..i]), ds[i])
  {
    assert ds[..i + 1][..i] == ds[..i];
  }

  /** One more default function: the global scope takes one more _SymbolTable_add step. */
  lemma DefaultsStep(g: Scope, bs: seq<Builtin>, i: nat)
    requires i < |bs|
    ensures AddDefaults(g, bs[..i + 1]) == ScopeAdd(AddDefaults(g, bs[..i]), DefaultSymbol(bs[i])).0
  {
    assert bs[..i + 1][..i] == bs[..i];
  }

  lemma DefaultTablesStep(bs: seq<Builtin>, i: nat)
    requires i < |bs|
    ensures DefaultTables(bs[..i + 1]) == DefaultTables(bs[..i]) + [DefaultTable(bs[i])]
  {
    assert bs[..i + 1][..i] == bs[..i];
  }

  /** The parameter table of a default function, filled by the loop of ProgramSymbolTable_add_default_function. */
  method DefaultParams(b: Builtin) returns (ps: ScopeTable)
    ensures fresh(ps)
    ensures ps.View() == DefaultTable(b).parameters
  {
    ps := new ScopeTable(Param);
    var k := 0;
    while k < |b.params|
      invariant 0 <= k <= |b.params|
      invariant ps.View() == AddAll(EmptyScope(Param), ParamSymbols(b.params[..k])).0
    {
      assert b.params[..k + 1][..k] == b.params[..k];
      AddAllSnoc(EmptyScope(Param), ParamSymbols(b.params[..k]), ParamSymbol(b.params[k]));
      var _ := ps.Add(ParamSymbol(b.params[k]));
      k := k + 1;
    }
    assert b.params[..k] == b.params;
  }

  /** ProgramSymbolTable: the global table, updated in place, and the function tables in order. */
  class ProgramTable {
    const globals: ScopeTable
    var functions: seq<FunctionTable>

    function View(): Program
      reads this, globals
    {
      Program(globals.View(), functions)
    }

    /** The zeroed object with an initialised global table. */
    constructor ()
      ensures fresh(globals)
      ensures View() == Program(EmptyScope(Global), [])
    {
      globals := new ScopeTable(Global);
      functions := [];
    }

    /** ProgramSymbolTable_add_default_function. */
    method AddDefaultFunction(b: Builtin)
      modifies this, globals
      ensures globals.View() == ScopeAdd(old(globals.View()), DefaultSymbol(b)).0
      ensures functions == old(functions) + [DefaultTable(b)]
    {
      var _ := globals.Add(DefaultSymbol(b));
      var ps := DefaultParams(b);
      functions := functions + [FunctionTable(b.name, b.ret, ps.View(), EmptyScope(Local))];
    }

    /** _SymbolTable_add_default_functions, given the revision's list of defaults (Builtins). */
    method AddDefaultFunctions(bs: seq<Builtin>)
      modifies this, globals
      ensures globals.View() == AddDefaults(old(globals.View()), bs)
      ensures functions == old(functions) + DefaultTables(bs)
    {
      ghost var g0 := globals.View();
      ghost var fs0 := functions;
      var i := 0;
      while i < |bs|
        invariant 0 <= i <= |bs|
        invariant globals.View() == AddDefaults(g0, bs[..i])
        invariant functions == fs0 + DefaultTables(bs[..i])
      {
        DefaultsStep(g0, bs, i);
        DefaultTablesStep(bs, i);
        AddDefaultFunction(bs[i]);
        i := i + 1;
      }
      assert bs[..i] == bs;
    }

    /** One iteration of _ProgramSymbolTable_from_DeclFoncts. */
    method AddDeclFonct(d: DeclFonct) returns (err: ErrorSet)
      requires WellFormedFonct(d)
      modifies this, globals
      ensures globals.View() == ScopeAdd(old(globals.View()), FunctionSymbol(d.ident, RetType(d))).0
      ensures functions == old(functions) + [FunctionTableOf(d)]
      ensures err == FunctionErrs(old(globals.View()), d)
    {
      var f;
      f, err := CreateFromDeclFonct(globals, d);
      functions := functions + [f];
    }

    /** _ProgramSymbolTable_from_DeclFoncts. */
    method FromDeclFoncts(ds: seq<DeclFonct>) returns (err: ErrorSet)
      requires WellFormedFoncts(ds)
      modifies this, globals
      ensures globals.View() == AddFoncts(old(globals.View()), ds)
      ensures functions == old(functions) + FonctTables(ds)
      ensures err == FonctsErrs(old(globals.View()), ds)
    {
      ghost var g0 := globals.View();
      ghost var fs0 := functions;
      err := {};
      var i := 0;
      while i < |ds|
        invariant 0 <= i <= |ds|
        invariant globals.View() == AddFoncts(g0, ds[..i])
        invariant functions == fs0 + FonctTables(ds[..i])
        invariant err == FonctsErrs(g0, ds[..i])
      {
        var e := AddDeclFonctAt(ds, i, g0, fs0);
        FonctsErrsStep(g0, ds, i);
        err := err + e;
        i := i + 1;
      }
      assert ds[..i] == ds;
    }

    /** The `i`-th turn of the loop of _ProgramSymbolTable_from_DeclFoncts, the first `i` functions added. */
    method AddDeclFonctAt(ds: seq<DeclFonct>, i: nat, ghost g0: Scope, ghost fs0: seq<FunctionTable>) returns (err: ErrorSet)
      requires WellFormedFoncts(ds) && i < |ds|
      requires globals.View() == AddFoncts(g0, ds[..i]) && functions == fs0 + FonctTables(ds[..i])
      modifies this, globals
      ensures globals.View() == AddFoncts(g0, ds[..i + 1])
      ensures functions == fs0 + FonctTables(ds[..i + 1])
      ensures err == FunctionErrs(AddFoncts(g0, ds[..i]), ds[i])
    {
      FonctsStep(g0, ds, i);
      FonctTablesStep(ds, i);
      err := AddDeclFonct(ds[i]);
    }
  }

  /** The first half of ProgramSymbolTable_from_Prog: the default functions, then the global declarations from address 0. */
  method GlobalsOfProg(rev: Revision, t: Prog) returns (prog: ProgramTable, err: ErrorSet)
    requires WellFormed(t)
    ensures fresh(prog) && fresh(prog.globals)
    ensures prog.globals.View() == WithGlobals(rev, t)
    ensures prog.functions == DefaultTables(Builtins(rev))
    ensures err == DeclErrs(DefaultGlobals(rev).(nextAddr := 0), t.globals)
  {
    prog := new ProgramTable();
    prog.AddDefaultFunctions(Builtins(rev));
    assert prog.functions == DefaultTables(Builtins(rev)) by {
      assert [] + DefaultTables(Builtins(rev)) == DefaultTables(Builtins(rev));
    }
    err := CreateFromDeclVars(prog.globals, 0, t.globals);
  }

  /** ProgramSymbolTable_from_Prog. */
  method FromProg(rev: Revision, t: Prog) returns (prog: ProgramTable, err: ErrorSet)
    requires WellFormed(t)
    ensures prog.View() == ProgramOf(rev, t)
    ensures err == ProgramErrs(rev, t)
  {
    var e1;
    prog, e1 := GlobalsOfProg(rev, t);
    var e2 := prog.FromDeclFoncts(t.funcs);
    err := e1 + e2;
  }

  // ---------------------------------------------------------------------------
  // Properties of the program table
  // ---------------------------------------------------------------------------

  /** The four default functions come first, then one table per declared function, in declaration order. */
  lemma ProgramFunctions(rev: Revision, t: Prog)
    requires WellFormed(t)
    ensures |ProgramOf(rev, t).functions| == 4 + |t.funcs|
    ensures forall i :: 0 <= i < 4 ==> ProgramOf(rev, t).functions[i] == DefaultTable(Builtins(rev)[i])
    ensures forall i :: 0 <= i < |t.funcs| ==> ProgramOf(rev, t).functions[4 + i] == FunctionTableOf(t.funcs[i])
  {
    var fs := ProgramOf(rev, t).functions;
    forall i | 0 <= i < 4 ensures fs[i] == DefaultTable(Builtins(rev)[i]) {
      DefaultTablesAt(Builtins(rev), i);
    }
    forall i | 0 <= i < |t.funcs| ensures fs[4 + i] == FunctionTableOf(t.funcs[i]) {
      FonctTablesAt(t.funcs, i);
    }
  }

  /** The builder reports only redeclarations and zero-size arrays. */
  lemma {:induction false} FonctsErrsKinds(g: Scope, ds: seq<DeclFonct>)
    requires WellFormedFoncts(ds)
    ensures FonctsErrs(g, ds) <= {SemRedeclaredSymbol, ArrayZeroSize}
    decreases |ds|
  {
    if |ds| > 0 {
      var pre := ds[..|ds| - 1];
      assert WellFormedFoncts(pre);
      FonctsErrsKinds(g, pre);
      FunctionErrsKinds(AddFoncts(g, pre), ds[|ds| - 1]);
    }
  }

  lemma ProgramErrsKinds(rev: Revision, t: Prog)
    requires WellFormed(t)
    ensures ProgramErrs(rev, t) <= {SemRedeclaredSymbol, ArrayZeroSize}
  {
    DeclErrsKinds(DefaultGlobals(rev).(nextAddr := 0), t.globals);
    FonctsErrsKinds(WithGlobals(rev, t), t.funcs);
  }

  /** A name, once in a scope, stays through a chain of declarations. */
  lemma {:induction false} AddNodesKeepsNames(sc: Scope, tns: seq<TypeNode>, n: Name)
    requires WellTyped(tns) && HasName(sc.symbols, n)
    ensures HasName(AddNodes(sc, tns).0.symbols, n)
    decreases |tns|
  {
    if |tns| > 0 {
      var pre := tns[..|tns| - 1];
      assert WellTyped(pre);
      AddNodesKeepsNames(sc, pre, n);
      AddAllNames(AddNodes(sc, pre).0, NodeSymbols(sc.kind, tns[|tns| - 1]), n);
    }
  }

  /** After the default functions, the global scope holds exactly the names held before and the default names. */
  lemma {:induction false} AddDefaultsNames(g: Scope, bs: seq<Builtin>, n: Name)
    ensures HasName(AddDefaults(g, bs).symbols, n) <==> HasName(g.symbols, n) || exists i :: 0 <= i < |bs| && bs[i].name == n
    decreases |bs|
  {
    if |bs| > 0 {
      var pre := bs[..|bs| - 1];
      AddDefaultsNames(g, pre, n);
      AddNames(AddDefaults(g, pre), DefaultSymbol(bs[|bs| - 1]), n);
      assert forall i :: 0 <= i < |pre| ==> pre[i] == bs[i];
    }
  }

  /** After the user functions, the global scope holds exactly the names held before and the functions' names. */
  lemma {:induction false} AddFonctsNames(g: Scope, ds: seq<DeclFonct>, n: Name)
    requires WellFormedFoncts(ds)
    ensures HasName(AddFoncts(g, ds).symbols, n) <==> HasName(g.symbols, n) || exists i :: 0 <= i < |ds| && ds[i].ident == n
    decreases |ds|
  {
    if |ds| > 0 {
      var pre := ds[..|ds| - 1];
      var d := ds[|ds| - 1];
      assert WellFormedFoncts(pre);
      AddFonctsNames(g, pre, n);
      AddNames(AddFoncts(g, pre), FunctionSymbol(d.ident, RetType(d)), n);
      assert forall i :: 0 <= i < |pre| ==> pre[i] == ds[i];
    }
  }

  /** Every function of the program, default or declared, has its name in the global scope. */
  lemma FunctionsDeclared(rev: Revision, t: Prog, k: nat)
    requires WellFormed(t) && k < |ProgramOf(rev, t).functions|
    ensures HasName(ProgramOf(rev, t).globals.symbols, ProgramOf(rev, t).functions[k].identifier)
  {
    ProgramFunctions(rev, t);
    var n := ProgramOf(rev, t).functions[k].identifier;
    if k < 4 {
      assert Builtins(rev)[k].name == n;
      AddDefaultsNames(EmptyScope(Global), Builtins(rev), n);
      AddNodesKeepsNames(DefaultGlobals(rev).(nextAddr := 0), t.globals, n);
    } else {
      assert t.funcs[k - 4].ident == n;
    }
    AddFonctsNames(WithGlobals(rev, t), t.funcs, n);
  }

  /** The default functions add only function symbols, so the global scope still stores nothing and keeps its parameter counter. */
  lemma {:induction false} DefaultsStoreNothing(g: Scope, bs: seq<Builtin>)
    requires g.kind == Global && Valid(g) && forall a :: a in g.symbols ==> !Storage(a)
    ensures Valid(AddDefaults(g, bs)) && AddDefaults(g, bs).nextAddrParam == g.nextAddrParam
    ensures forall a :: a in AddDefaults(g, bs).symbols ==> !Storage(a)
    decreases |bs|
  {
    if |bs| > 0 {
      var pre := bs[..|bs| - 1];
      DefaultsStoreNothing(g, pre);
      var h := AddDefaults(g, pre);
      var x := DefaultSymbol(bs[|bs| - 1]);
      AddKeepsValid(h, x);
      assert h.kind == Global;
      if !HasName(h.symbols, x.identifier) {
        AddContents(h, x);
      }
    }
  }

  /** Adding the user functions' symbols, which occupy nothing, keeps the global scope valid and laid out. */
  lemma {:induction false} AddFonctsKeepsLaid(g: Scope, ds: seq<DeclFonct>, floor: int)
    requires WellFormedFoncts(ds) && Valid(g) && Laid(g, floor)
    ensures Valid(AddFoncts(g, ds)) && Laid(AddFoncts(g, ds), floor)
    decreases |ds|
  {
    if |ds| > 0 {
      var pre := ds[..|ds| - 1];
      var d := ds[|ds| - 1];
      assert WellFormedFoncts(pre);
      AddFonctsKeepsLaid(g, pre, floor);
      AddKeepsValid(AddFoncts(g, pre), FunctionSymbol(d.ident, RetType(d)));
      AddKeepsLaid(AddFoncts(g, pre), FunctionSymbol(d.ident, RetType(d)), floor);
    }
  }

  /**
   * The global scope of a built program is valid, and its variables lie side
   * by side from address 0, below the counter, without overlapping: the
   * default functions occupy no storage, and the declarations start again at 0.
   */
  lemma GlobalsLaid(rev: Revision, t: Prog)
    requires WellFormed(t)
    ensures Valid(ProgramOf(rev, t).globals) && Laid(ProgramOf(rev, t).globals, 0)
  {
    var e := EmptyScope(Global);
    DefaultsStoreNothing(e, Builtins(rev));
    var g0 := DefaultGlobals(rev).(nextAddr := 0);
    NothingStoredIsLaid(g0, 0);
    AddNodesKeepsValid(g0, t.globals);
    AddNodesKeepsLaid(g0, t.globals, 0);
    AddFonctsKeepsLaid(WithGlobals(rev, t), t.funcs, 0);
  }

  /** A run of global adds, each of a stored symbol or of one taking no bytes, keeps the packing. */
  lemma {:induction false} AddAllKeepsPacked(sc: Scope, syms: seq<Symbol>)
    requires sc.kind == Global && Valid(sc) && Packed(sc)
    requires forall i :: 0 <= i < |syms| ==> Storage(syms[i]) || syms[i].totalSize == 0
    ensures Valid(AddAll(sc, syms).0) && Packed(AddAll(sc, syms).0)
    decreases |syms|
  {
    if |syms| > 0 {
      var syms' := syms[..|syms| - 1];
      AddAllKeepsPacked(sc, syms');
      AddKeepsValid(AddAll(sc, syms').0, syms[|syms| - 1]);
      AddKeepsPacked(AddAll(sc, syms').0, syms[|syms| - 1]);
    }
  }

  /** Global declarations keep the packing: every declarator is a value or an array, which is stored. */
  lemma {:induction false} AddNodesKeepsPacked(sc: Scope, tns: seq<TypeNode>)
    requires WellTyped(tns) && sc.kind == Global && Valid(sc) && Packed(sc)
    ensures Valid(AddNodes(sc, tns).0) && Packed(AddNodes(sc, tns).0)
    decreases |tns|
  {
    if |tns| > 0 {
      var tns' := tns[..|tns| - 1];
      assert WellTyped(tns');
      AddNodesKeepsPacked(sc, tns');
      AddAllKeepsPacked(AddNodes(sc, tns').0, NodeSymbols(sc.kind, tns[|tns| - 1]));
    }
  }

  /** The user functions' symbols take no bytes, so they keep the packing. */
  lemma {:induction false} AddFonctsKeepsPacked(g: Scope, ds: seq<DeclFonct>)
    requires WellFormedFoncts(ds) && g.kind == Global && Valid(g) && Packed(g)
    ensures Valid(AddFoncts(g, ds)) && Packed(AddFoncts(g, ds))
    decreases |ds|
  {
    if |ds| > 0 {
      var pre := ds[..|ds| - 1];
      var d := ds[|ds| - 1];
      assert WellFormedFoncts(pre);
      AddFonctsKeepsPacked(g, pre);
      AddKeepsValid(AddFoncts(g, pre), FunctionSymbol(d.ident, RetType(d)));
      AddKeepsPacked(AddFoncts(g, pre), FunctionSymbol(d.ident, RetType(d)));
    }
  }

  /**
   * The global variables of a built program lie side by side from address 0
   * in declaration order: each one's address is the total size of the
   * variables declared before it, and the counter, which sizes the static
   * data block, is the total size of all of them. The default functions'
   * sizes do not count, because the declarations start again at 0.
   */
  lemma GlobalsPacked(rev: Revision, t: Prog)
    requires WellFormed(t)
    ensures Packed(ProgramOf(rev, t).globals)
  {
    var e := EmptyScope(Global);
    DefaultsStoreNothing(e, Builtins(rev));
    var g0 := DefaultGlobals(rev).(nextAddr := 0);
    SizeBelowNothing(g0.symbols, |g0.symbols|);
    AddNodesKeepsPacked(g0, t.globals);
    AddFonctsKeepsPacked(WithGlobals(rev, t), t.funcs);
  }

}
