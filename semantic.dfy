/**
 * The semantic checker of semantic.c: a read-only walk over the functions'
 * statement lists that ORs together the diagnostics it reports. The walk
 * checks neither arities nor types; it looks at calls, at identifiers used
 * as values, and at return statements.
 */
module Semantic {
  import opened Wrappers
  import opened Symbols
  import opened Errors
  import opened Scopes
  import opened Ast
  import opened SymbolTable
  import opened Lookup

  /**
   * What a step of the walk produces: the flags it ORs into its ErrorType,
   * the diagnostics it prints (in order), and whether the process stopped.
   */
  datatype Outcome = Outcome(errs: ErrorSet, printed: seq<ErrorKind>, stop: Option<Stop>)

  /** ERR_NONE, nothing printed. */
  function Clean(): Outcome {
    Outcome({}, [], None)
  }

  /** CodeError_print with `.err = (err |= k)`: printed and ORed in. */
  function Report(k: ErrorKind): Outcome {
    Outcome({k}, [k], None)
  }

  /** One step after another: once the process has stopped, nothing later happens. */
  function Then(a: Outcome, b: Outcome): (o: Outcome)
    ensures a.stop.Some? ==> o == a
    ensures a.stop.None? ==> o.errs == a.errs + b.errs && o.printed == a.printed + b.printed && o.stop == b.stop
  {
    if a.stop.Some? then a else Outcome(a.errs + b.errs, a.printed + b.printed, b.stop)
  }

  /** The flags the checker can return. */
  function CheckerKinds(): ErrorSet {
    {SemIsNotCallable, FunctionAsRvalue, ReturnTypeNonVoid, ReturnTypeVoid, MainUnavailable, MainReturnType, MainParam}
  }

  /** A stop the checker can come to: the undeclared-symbol exit, or an assertion. */
  predicate KnownStop(o: Outcome) {
    o.stop.None? || o.stop == Some(Exited(UndeclaredSymbol)) || o.stop == Some(Aborted)
  }

  /** The walk's view of the function being checked: the program table, the function's table and its position. */
  datatype Ctx = Ctx(prog: Program, func: FunctionTable, caller: nat)

  /**
   * _Semantic_Expr. Operators check both operands; an identifier is resolved
   * (the process exits when it cannot be), then a name with call syntax must
   * be a function and a function name must be called. Literals, array
   * elements and the other labels are not checked.
   */
  function ExprCheck(c: Ctx, e: Expr): (o: Outcome)
    ensures o.errs <= CheckerKinds() - {ReturnTypeNonVoid, ReturnTypeVoid, MainUnavailable, MainReturnType, MainParam}
    ensures o.stop.None? || o.stop == Some(Exited(UndeclaredSymbol))
    decreases ExprSize(e), 1
  {
    match e
    case Addsub(_, l, r) => Then(ExprCheck(c, l), ExprCheck(c, r))
    case Divstar(_, l, r) => Then(ExprCheck(c, l), ExprCheck(c, r))
    case Ident(n, call) =>
      (match ResolveFromNode(c.prog, c.func, n)
       case Exit(code) => Outcome({}, [code], Some(Exited(code)))
       case Found(sym) =>
         if call.Some? then
           if sym.kind == Function then CallCheck(c, n, call.value) else Report(SemIsNotCallable)
         else if sym.kind == Function then Report(FunctionAsRvalue)
         else Clean())
    case _ => Clean()
  }

  /**
   * _Semantic_FunctionCall on a node with call syntax: the implicit-declaration
   * diagnostic when the callee comes after the caller (printed, never ORed
   * in), then each argument in turn.
   */
  function CallCheck(c: Ctx, n: Name, a: CallArgs): (o: Outcome)
    ensures o.errs <= CheckerKinds() - {ReturnTypeNonVoid, ReturnTypeVoid, MainUnavailable, MainReturnType, MainParam}
    ensures o.stop.None? || o.stop == Some(Exited(UndeclaredSymbol))
    ensures !DefinedBeforeUse(c.caller, FunctionIndex(c.prog.functions, n)) ==> |o.printed| > 0 && o.printed[0] == UseUndefinedFunction
    ensures DefinedBeforeUse(c.caller, FunctionIndex(c.prog.functions, n)) ==> o == (if a.EmptyArgs? then Clean() else ArgsCheck(c, a.args))
    ensures UseUndefinedFunction !in o.errs
    decreases ExprSize(Ident(n, Some(a))), 0
  {
    var warn := Outcome({}, if DefinedBeforeUse(c.caller, FunctionIndex(c.prog.functions, n)) then [] else [UseUndefinedFunction], None);
    match a
    case EmptyArgs => warn
    case ListExp(args) => Then(warn, ArgsCheck(c, args))
  }

  /** The argument loop of _Semantic_FunctionCall. */
  function ArgsCheck(c: Ctx, args: seq<Expr>): (o: Outcome)
    ensures o.errs <= CheckerKinds() - {ReturnTypeNonVoid, ReturnTypeVoid, MainUnavailable, MainReturnType, MainParam}
    ensures o.stop.None? || o.stop == Some(Exited(UndeclaredSymbol))
    ensures UseUndefinedFunction !in o.errs
    decreases ArgsSize(args), 2
  {
    if |args| == 0 then Clean() else Then(ArgsCheck(c, args[..|args| - 1]), ExprCheck(c, args[|args| - 1]))
  }

  /** The walk may take the function's symbol from the global table. */
  predicate HasSymbol(c: Ctx) {
    HasName(c.prog.globals.symbols, c.func.identifier)
  }

  /** The return type as _Semantic_Return reads it: the type of the function's global symbol. */
  function ReturnsVoid(c: Ctx): bool
    requires HasSymbol(c)
  {
    Get(c.prog.globals, c.func.identifier).value.ty == Void
  }

  /** _Semantic_Return. */
  function ReturnCheck(c: Ctx, result: Option<Expr>): (o: Outcome)
    requires HasSymbol(c)
    ensures ReturnsVoid(c) ==> o == (if result.Some? then Report(ReturnTypeNonVoid) else Clean())
    ensures !ReturnsVoid(c) && result.None? ==> o == Report(ReturnTypeVoid)
    ensures !ReturnsVoid(c) && result.Some? ==> o == ExprCheck(c, result.value)
  {
    if ReturnsVoid(c) then
      if result.Some? then Report(ReturnTypeNonVoid) else Clean()
    else if result.None? then Report(ReturnTypeVoid)
    else ExprCheck(c, result.value)
  }

  /**
   * One child of the statement list. An identifier there goes straight to
   * _Semantic_FunctionCall, whose assert fails when it has no call syntax;
   * expressions of other labels, nested blocks and control statements are
   * skipped.
   */
  function StmtCheck(c: Ctx, s: Stmt): (o: Outcome)
    requires HasSymbol(c)
    ensures o.errs <= CheckerKinds() - {MainUnavailable, MainReturnType, MainParam}
    ensures KnownStop(o)
  {
    match s
    case Return(r) => ReturnCheck(c, r)
    case Assignation(_, src) => ExprCheck(c, src)
    case ExprStmt(Ident(n, call)) => if call.Some? then CallCheck(c, n, call.value) else Outcome({}, [], Some(Aborted))
    case _ => Clean()
  }

  /** The statements of a list checked in order. */
  function StmtsCheck(c: Ctx, body: seq<Stmt>): (o: Outcome)
    requires HasSymbol(c)
    ensures o.errs <= CheckerKinds() - {MainUnavailable, MainReturnType, MainParam}
    ensures KnownStop(o)
    decreases |body|
  {
    if |body| == 0 then Clean() else Then(StmtsCheck(c, body[..|body| - 1]), StmtCheck(c, body[|body| - 1]))
  }

  /** Some direct child of the list is a return; nested blocks are not looked into. */
  predicate HasReturn(body: seq<Stmt>) {
    exists i :: 0 <= i < |body| && body[i].Return?
  }

  /** _Semantic_SuiteInstr, as written: a list without a return adds ERR_RETURN_TYPE_VOID whatever the function returns. */
  function SuiteCheck(c: Ctx, body: seq<Stmt>): (o: Outcome)
    requires HasSymbol(c)
    ensures o.errs <= CheckerKinds() - {MainUnavailable, MainReturnType, MainParam}
    ensures KnownStop(o)
  {
    if HasReturn(body) then StmtsCheck(c, body) else Then(StmtsCheck(c, body), Report(ReturnTypeVoid))
  }

  /** The check the diagnostic's wording ("returning non-void") describes: a missing return matters only in a non-void function. */
  function SuiteCheckIntended(c: Ctx, body: seq<Stmt>): (o: Outcome)
    requires HasSymbol(c)
    ensures o.errs <= CheckerKinds() - {MainUnavailable, MainReturnType, MainParam}
    ensures KnownStop(o)
  {
    if HasReturn(body) || ReturnsVoid(c) then StmtsCheck(c, body) else Then(StmtsCheck(c, body), Report(ReturnTypeVoid))
  }

  /** The function has a table: FunctionSymbolTable_get_from_name does not return NULL for its name. */
  predicate Declared(p: Program, d: DeclFonct) {
    FunctionIndex(p.functions, d.ident).Some?
  }

  /** Every function table's name is in the global scope, where the checker reads the function's symbol. */
  predicate NamesDeclared(p: Program) {
    forall j :: 0 <= j < |p.functions| ==> HasName(p.globals.symbols, p.functions[j].identifier)
  }

  /** The table the checker takes for a function: the first one carrying its name. */
  function ContextOf(p: Program, d: DeclFonct): (c: Ctx)
    requires Declared(p, d)
    ensures c.prog == p && c.caller < |p.functions| && c.func == p.functions[c.caller] && c.func.identifier == d.ident
  {
    var i := FunctionIndex(p.functions, d.ident).value;
    Ctx(p, p.functions[i], i)
  }

  /**
   * What the checker needs of the program table, as the builder produces it
   * from the same tree: every declared function has a table, and every table's
   * name is in the global scope.
   */
  predicate ConsistentFoncts(p: Program, ds: seq<DeclFonct>) {
    NamesDeclared(p) && forall k :: 0 <= k < |ds| ==> Declared(p, ds[k])
  }

  predicate Consistent(p: Program, t: Prog) {
    ConsistentFoncts(p, t.funcs)
  }

  /** _Semantic_DeclFonct. */
  function DeclFonctCheck(p: Program, d: DeclFonct): (o: Outcome)
    requires Declared(p, d) && NamesDeclared(p)
    ensures o.errs <= CheckerKinds() - {MainUnavailable, MainReturnType, MainParam}
    ensures KnownStop(o)
  {
    SuiteCheck(ContextOf(p, d), d.body)
  }

  /** _Semantic_DeclFoncts: each function in declaration order. */
  function DeclFonctsCheck(p: Program, ds: seq<DeclFonct>): (o: Outcome)
    requires ConsistentFoncts(p, ds)
    ensures o.errs <= CheckerKinds() - {MainUnavailable, MainReturnType, MainParam}
    ensures KnownStop(o)
    decreases |ds|
  {
    if |ds| == 0 then Clean()
    else
      assert ConsistentFoncts(p, ds[..|ds| - 1]);
      Then(DeclFonctsCheck(p, ds[..|ds| - 1]), DeclFonctCheck(p, ds[|ds| - 1]))
  }

  /** Semantic_check_main. */
  function MainCheck(p: Program): (o: Outcome)
    requires NamesDeclared(p)
    ensures o.stop.None? && o.errs <= {MainUnavailable, MainReturnType, MainParam}
    ensures MainUnavailable in o.errs <==> FunctionIndex(p.functions, "main").None?
    ensures MainReturnType in o.errs <==> exists i :: FunctionIndex(p.functions, "main") == Some(i) && p.functions[i].retType != Type.Num
    ensures MainParam in o.errs <==> exists i :: FunctionIndex(p.functions, "main") == Some(i) && ParamCount(p.functions[i]) > 0
  {
    match FunctionIndex(p.functions, "main")
    case None => Report(MainUnavailable)
    case Some(i) =>
      var f := p.functions[i];
      Then(if f.retType != Type.Num then Report(MainReturnType) else Clean(),
           if ParamCount(f) > 0 then Report(MainParam) else Clean())
  }

  /** Semantic_check: the functions, then main. */
  function Check(p: Program, t: Prog): (o: Outcome)
    requires Consistent(p, t)
    ensures o.errs <= CheckerKinds()
    ensures KnownStop(o)
  {
    assert ConsistentFoncts(p, t.funcs);
    Then(DeclFonctsCheck(p, t.funcs), MainCheck(p))
  }

  // ---------------------------------------------------------------------------
  // The loops of semantic.c
  // ---------------------------------------------------------------------------

  /** _Semantic_FunctionCall: the order test, then a loop over the argument siblings. */
  method FunctionCall(c: Ctx, n: Name, a: CallArgs) returns (o: Outcome)
    ensures o == CallCheck(c, n, a)
  {
    o := Outcome({}, if DefinedBeforeUse(c.caller, FunctionIndex(c.prog.functions, n)) then [] else [UseUndefinedFunction], None);
    if a.ListExp? {
      var args := a.args;
      var acc := Clean();
      for i := 0 to |args|
        invariant acc == ArgsCheck(c, args[..i])
      {
        assert args[..i + 1][..i] == args[..i];
        acc := Then(acc, ExprCheck(c, args[i]));
      }
      assert args[..|args|] == args;
      o := Then(o, acc);
    }
  }

  /** One statement of the pass of _Semantic_SuiteInstr. */
  method Statement(c: Ctx, s: Stmt) returns (o: Outcome)
    requires HasSymbol(c)
    ensures o == StmtCheck(c, s)
  {
    match s {
      case Return(r) =>
        o := ReturnCheck(c, r);
      case Assignation(_, src) =>
        o := ExprCheck(c, src);
      case ExprStmt(e) =>
        if e.Ident? {
          if e.call.None? {
            o := Outcome({}, [], Some(Aborted));
          } else {
            o := FunctionCall(c, e.ident, e.call.value);
          }
        } else {
          o := Clean();
        }
      case OtherStmt(_) =>
        o := Clean();
    }
  }

  /** A list one statement longer has a return when the shorter one has or that statement is one. */
  lemma HasReturnNext(body: seq<Stmt>, i: nat)
    requires i < |body|
    ensures HasReturn(body[..i + 1]) <==> HasReturn(body[..i]) || body[i].Return?
  {
    if HasReturn(body[..i + 1]) && !body[i].Return? {
      var j :| 0 <= j < i + 1 && body[..i + 1][j].Return?;
      assert body[..i][j].Return?;
    }
    if HasReturn(body[..i]) {
      var j :| 0 <= j < i && body[..i][j].Return?;
      assert body[..i + 1][j].Return?;
    }
    if body[i].Return? {
      assert body[..i + 1][i].Return?;
    }
  }

  /** _Semantic_SuiteInstr: one pass over the statement siblings, noting whether a return was seen. */
  method SuiteInstr(c: Ctx, body: seq<Stmt>) returns (o: Outcome)
    requires HasSymbol(c)
    ensures o == SuiteCheck(c, body)
  {
    o := Clean();
    var hasReturn := false;
    for i := 0 to |body|
      invariant o == StmtsCheck(c, body[..i])
      invariant hasReturn <==> HasReturn(body[..i])
    {
      assert body[..i + 1][..i] == body[..i];
      var step := Statement(c, body[i]);
      hasReturn := hasReturn || body[i].Return?;
      HasReturnNext(body, i);
      o := Then(o, step);
    }
    assert body[..|body|] == body;
    if !hasReturn {
      o := Then(o, Report(ReturnTypeVoid));
    }
  }

  /** _Semantic_DeclFoncts: one pass over the function siblings. */
  method DeclFoncts(p: Program, ds: seq<DeclFonct>) returns (o: Outcome)
    requires ConsistentFoncts(p, ds)
    ensures o == DeclFonctsCheck(p, ds)
  {
    o := Clean();
    for i := 0 to |ds|
      invariant ConsistentFoncts(p, ds[..i])
      invariant o == DeclFonctsCheck(p, ds[..i])
    {
      assert ds[..i + 1][..i] == ds[..i];
      var f := SuiteInstr(ContextOf(p, ds[i]), ds[i].body);
      o := Then(o, f);
    }
    assert ds[..|ds|] == ds;
  }

  /** Semantic_check. */
  method SemanticCheck(p: Program, t: Prog) returns (o: Outcome)
    requires Consistent(p, t)
    ensures o == Check(p, t)
  {
    o := DeclFoncts(p, t.funcs);
    o := Then(o, MainCheck(p));
  }

  // ---------------------------------------------------------------------------
  // Properties of the checker
  // ---------------------------------------------------------------------------

  /** A program table the builder produced from a tree meets what the checker needs of it. */
  lemma ProgramConsistent(rev: Revision, t: Prog)
    requires WellFormed(t)
    ensures Consistent(ProgramOf(rev, t), t)
  {
    var p := ProgramOf(rev, t);
    ProgramFunctions(rev, t);
    forall k | 0 <= k < |t.funcs| ensures Declared(p, t.funcs[k]) {
      assert p.functions[4 + k].identifier == t.funcs[k].ident;
    }
    forall j | 0 <= j < |p.functions| ensures HasName(p.globals.symbols, p.functions[j].identifier) {
      FunctionsDeclared(rev, t, j);
    }
  }

  /** A prefix of a walk that did not stop did not stop either. */
  lemma PrefixRuns(c: Ctx, body: seq<Stmt>)
    requires HasSymbol(c) && |body| > 0 && StmtsCheck(c, body).stop.None?
    ensures StmtsCheck(c, body[..|body| - 1]).stop.None?
  {
  }

  /**
   * A statement list that runs to its end reports ERR_RETURN_TYPE_VOID exactly
   * for a value-less return of a non-void function, and
   * ERR_RETURN_TYPE_NON_VOID exactly for a valued return of a void one.
   */
  lemma {:induction false} StmtsReturnErrs(c: Ctx, body: seq<Stmt>)
    requires HasSymbol(c) && StmtsCheck(c, body).stop.None?
    ensures ReturnTypeVoid in StmtsCheck(c, body).errs <==>
              !ReturnsVoid(c) && exists i :: 0 <= i < |body| && body[i] == Return(None)
    ensures ReturnTypeNonVoid in StmtsCheck(c, body).errs <==>
              ReturnsVoid(c) && exists i :: 0 <= i < |body| && body[i].Return? && body[i].result.Some?
    decreases |body|
  {
    if |body| > 0 {
      var pre := body[..|body| - 1];
      var s := body[|body| - 1];
      PrefixRuns(c, body);
      StmtsReturnErrs(c, pre);
      assert forall i :: 0 <= i < |pre| ==> pre[i] == body[i];
      if s.Return? {
        if !ReturnsVoid(c) && s.result.Some? {
          assert ReturnTypeVoid !in StmtCheck(c, s).errs && ReturnTypeNonVoid !in StmtCheck(c, s).errs;
        }
      }
    }
  }

  /**
   * As written, a list that runs to its end reports ERR_RETURN_TYPE_VOID when it
   * has no return at all, whatever the function returns; for a void function
   * that is the only way to get it.
   */
  lemma SuiteMissingReturn(c: Ctx, body: seq<Stmt>)
    requires HasSymbol(c) && StmtsCheck(c, body).stop.None?
    ensures ReturnTypeVoid in SuiteCheck(c, body).errs <==>
              !HasReturn(body) || (!ReturnsVoid(c) && exists i :: 0 <= i < |body| && body[i] == Return(None))
    ensures ReturnsVoid(c) ==> (ReturnTypeVoid in SuiteCheck(c, body).errs <==> !HasReturn(body))
  {
    StmtsReturnErrs(c, body);
  }

  /** The discrepancy: a void function with an empty body is rejected. */
  lemma VoidEmptyBodyRejected(c: Ctx)
    requires HasSymbol(c) && ReturnsVoid(c)
    ensures SuiteCheck(c, []) == Report(ReturnTypeVoid)
  {
    assert !HasReturn([]);
  }

  /**
   * Corrected, ERR_RETURN_TYPE_VOID means what its diagnostics say: a non-void
   * function without a return, or a value-less return in one. A void function
   * never gets it.
   */
  lemma SuiteIntendedReturnErrs(c: Ctx, body: seq<Stmt>)
    requires HasSymbol(c) && StmtsCheck(c, body).stop.None?
    ensures ReturnTypeVoid in SuiteCheckIntended(c, body).errs <==>
              !ReturnsVoid(c) && (!HasReturn(body) || exists i :: 0 <= i < |body| && body[i] == Return(None))
    ensures ReturnsVoid(c) ==> ReturnTypeVoid !in SuiteCheckIntended(c, body).errs
  {
    StmtsReturnErrs(c, body);
  }

  /** The corrected check accepts a void function with an empty body. */
  lemma VoidEmptyBodyAccepted(c: Ctx)
    requires HasSymbol(c) && ReturnsVoid(c)
    ensures SuiteCheckIntended(c, []) == Clean()
  {
  }

  /** A call's result holds exactly the flags of its arguments' checks, when none of them stops. */
  lemma {:induction false} ArgsUnion(c: Ctx, args: seq<Expr>, x: ErrorKind)
    requires ArgsCheck(c, args).stop.None?
    ensures x in ArgsCheck(c, args).errs <==> exists i :: 0 <= i < |args| && x in ExprCheck(c, args[i]).errs
    decreases |args|
  {
    if |args| > 0 {
      var pre := args[..|args| - 1];
      ArgsUnion(c, pre, x);
      assert forall i :: 0 <= i < |pre| ==> pre[i] == args[i];
    }
  }

  /** Outcomes of consecutive steps, composed in order. */
  function ThenAll(os: seq<Outcome>): Outcome
    decreases |os|
  {
    if |os| == 0 then Clean() else Then(ThenAll(os[..|os| - 1]), os[|os| - 1])
  }

  /** When no step stops, the composed flags are exactly the union of the steps' flags. */
  lemma {:induction false} ThenAllUnion(os: seq<Outcome>, x: ErrorKind)
    requires ThenAll(os).stop.None?
    ensures x in ThenAll(os).errs <==> exists k :: 0 <= k < |os| && x in os[k].errs
    decreases |os|
  {
    if |os| > 0 {
      var n := |os| - 1;
      var pre := os[..n];
      assert ThenAll(pre).stop.None?;
      ThenAllUnion(pre, x);
      if x in ThenAll(pre).errs {
        var k :| 0 <= k < |pre| && x in pre[k].errs;
        assert pre[k] == os[k];
      }
      if exists k :: 0 <= k < |os| && x in os[k].errs {
        var k :| 0 <= k < |os| && x in os[k].errs;
        if k < n {
          assert pre[k] == os[k];
        }
      }
    }
  }

  /** The outcome of each function's own check, in declaration order. */
  function FonctOutcomes(p: Program, ds: seq<DeclFonct>): (os: seq<Outcome>)
    requires ConsistentFoncts(p, ds)
    ensures |os| == |ds| && forall k :: 0 <= k < |ds| ==> os[k] == DeclFonctCheck(p, ds[k])
  {
    seq(|ds|, k requires 0 <= k < |ds| && ConsistentFoncts(p, ds) => DeclFonctCheck(p, ds[k]))
  }

  /** The outcomes of a first part of the functions are the first outcomes. */
  lemma FonctOutcomesPrefix(p: Program, ds: seq<DeclFonct>, n: nat)
    requires ConsistentFoncts(p, ds) && n <= |ds|
    ensures ConsistentFoncts(p, ds[..n]) && FonctOutcomes(p, ds)[..n] == FonctOutcomes(p, ds[..n])
  {
    var os, pre := FonctOutcomes(p, ds), FonctOutcomes(p, ds[..n]);
    forall i | 0 <= i < n ensures os[..n][i] == pre[i] {
      assert ds[..n][i] == ds[i];
    }
  }

  /** The loop over the functions composes their own outcomes in order. */
  lemma {:induction false} DeclFonctsComposed(p: Program, ds: seq<DeclFonct>)
    requires ConsistentFoncts(p, ds)
    ensures DeclFonctsCheck(p, ds) == ThenAll(FonctOutcomes(p, ds))
    decreases |ds|
  {
    if |ds| > 0 {
      var n := |ds| - 1;
      FonctOutcomesPrefix(p, ds, n);
      DeclFonctsComposed(p, ds[..n]);
      var os := FonctOutcomes(p, ds);
      assert os[n] == DeclFonctCheck(p, ds[n]);
      assert ThenAll(os) == Then(ThenAll(os[..n]), os[n]);
    }
  }

  /** The functions' result holds exactly the flags of the functions' own checks, when none of them stops. */
  lemma DeclFonctsUnion(p: Program, ds: seq<DeclFonct>, x: ErrorKind)
    requires ConsistentFoncts(p, ds) && DeclFonctsCheck(p, ds).stop.None?
    ensures x in DeclFonctsCheck(p, ds).errs <==> exists k :: 0 <= k < |ds| && x in DeclFonctCheck(p, ds[k]).errs
  {
    var os := FonctOutcomes(p, ds);
    DeclFonctsComposed(p, ds);
    ThenAllUnion(os, x);
  }

  /** Semantic_check ORs together every function's flags and the flags of the main checks: none is lost. */
  lemma CheckUnion(p: Program, t: Prog, x: ErrorKind)
    requires Consistent(p, t) && Check(p, t).stop.None?
    ensures x in Check(p, t).errs <==> x in MainCheck(p).errs || exists k :: 0 <= k < |t.funcs| && x in DeclFonctCheck(p, t.funcs[k]).errs
  {
    assert ConsistentFoncts(p, t.funcs);
    DeclFonctsUnion(p, t.funcs, x);
  }

  /**
   * In a built program, a call from one declared function to a function
   * declared after it prints the implicit-declaration diagnostic, and the
   * flag never reaches the result.
   */
  lemma LaterCallPrinted(rev: Revision, t: Prog, k: nat, j: nat, a: CallArgs)
    requires WellFormed(t) && k < j < |t.funcs|
    requires forall i :: 0 <= i < 4 ==> Builtins(rev)[i].name != t.funcs[k].ident && Builtins(rev)[i].name != t.funcs[j].ident
    requires forall m :: 0 <= m < k ==> t.funcs[m].ident != t.funcs[k].ident
    requires forall m :: 0 <= m < j ==> t.funcs[m].ident != t.funcs[j].ident
    ensures FunctionIndex(ProgramOf(rev, t).functions, t.funcs[k].ident).Some?
    ensures var o := CallCheck(ContextOf(ProgramOf(rev, t), t.funcs[k]), t.funcs[j].ident, a);
            |o.printed| > 0 && o.printed[0] == UseUndefinedFunction && UseUndefinedFunction !in o.errs
  {
    DeclaredFound(rev, t, k);
    LaterNotDefined(rev, t, k, j);
  }

  /** A call to a function declared at or before the caller prints nothing and raises nothing. */
  lemma EarlierCallSilent(rev: Revision, t: Prog, k: nat, j: nat)
    requires WellFormed(t) && j <= k < |t.funcs|
    requires forall i :: 0 <= i < 4 ==> Builtins(rev)[i].name != t.funcs[k].ident && Builtins(rev)[i].name != t.funcs[j].ident
    requires forall m :: 0 <= m < k ==> t.funcs[m].ident != t.funcs[k].ident
    requires forall m :: 0 <= m < j ==> t.funcs[m].ident != t.funcs[j].ident
    ensures FunctionIndex(ProgramOf(rev, t).functions, t.funcs[k].ident).Some?
    ensures CallCheck(ContextOf(ProgramOf(rev, t), t.funcs[k]), t.funcs[j].ident, EmptyArgs) == Clean()
  {
    var p := ProgramOf(rev, t);
    DeclaredFound(rev, t, k);
    DeclaredFound(rev, t, j);
    var callee := FunctionIndex(p.functions, t.funcs[j].ident);
    assert FunctionIndex(p.functions, t.funcs[k].ident) == Some(4 + k);
    assert callee == Some(4 + j);
    var c := ContextOf(p, t.funcs[k]);
    assert c.caller == 4 + k;
    assert DefinedBeforeUse(c.caller, callee);
  }

  /**
   * The identifier rules of _Semantic_Expr, for a name that resolves: with
   * call syntax a non-function is not callable; without it a function is a
   * forbidden rvalue and anything else is accepted.
   */
  lemma IdentifierRules(c: Ctx, n: Name, sym: Symbol, a: CallArgs)
    requires Resolve(c.prog, c.func, n) == Some(sym)
    ensures sym.kind != Function ==> ExprCheck(c, Ident(n, Some(a))) == Report(SemIsNotCallable)
    ensures sym.kind == Function ==> ExprCheck(c, Ident(n, Some(a))) == CallCheck(c, n, a)
    ensures ExprCheck(c, Ident(n, None)) == if sym.kind == Function then Report(FunctionAsRvalue) else Clean()
  {
  }

  /** An identifier that resolves nowhere ends the process with ERR_UNDECLARED_SYMBOL, whatever follows it. */
  lemma UndeclaredExits(c: Ctx, n: Name, call: Option<CallArgs>, rest: Expr)
    requires Resolve(c.prog, c.func, n).None?
    ensures ExprCheck(c, Addsub('+', Ident(n, call), rest)).stop == Some(Exited(UndeclaredSymbol))
    ensures ExprCheck(c, Addsub('+', Ident(n, call), rest)).errs == {}
  {
    assert ExprCheck(c, Ident(n, call)) == Outcome({}, [UndeclaredSymbol], Some(Exited(UndeclaredSymbol)));
  }
}
