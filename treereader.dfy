/**
 * The code-generating walk of treeReader.c, with the emitters of
 * codeWriter.c that call back into it (loads, stores, calls). Each walker
 * is a function from the tree and the symbol tables to what it writes, the
 * warnings it prints and how the process stops, if it does: a failed
 * assertion or a NULL dereference aborts; an undeclared name makes
 * SymbolTable_resolve_from_node exit.
 */
module TreeReader {
  import opened Wrappers
  import opened Errors
  import opened Registers
  import opened Symbols
  import opened Scopes
  import opened Ast
  import opened SymbolTable
  import opened Lookup
  import opened CodeWriter

  /** The program's tables and the function being compiled. */
  datatype Env = Env(prog: Program, func: FunctionTable)

  /** What a part of the walk wrote, the diagnostics it printed, and how it stopped, if it did. */
  datatype Gen = Gen(code: seq<Instr>, printed: seq<ErrorKind>, stop: Option<Stop>)

  function Emitted(code: seq<Instr>): Gen {
    Gen(code, [], None)
  }

  function Aborts(): Gen {
    Gen([], [], Some(Aborted))
  }

  /** One part of the walk, then the next unless the first stopped the process. */
  function ThenGen(a: Gen, b: Gen): (r: Gen)
    ensures a.stop.Some? ==> r == a
    ensures a.stop.None? ==> r == Gen(a.code + b.code, a.printed + b.printed, b.stop)
  {
    if a.stop.Some? then a else Gen(a.code + b.code, a.printed + b.printed, b.stop)
  }

  /** Two parts joined: code inside the frame stays inside it, and the effects on the stack add up. */
  lemma ThenGenBody(a: Gen, b: Gen)
    ensures AllInBody(a.code) && AllInBody(b.code) ==> AllInBody(ThenGen(a, b).code)
    ensures ThenGen(a, b).stop.None? ==> a.stop.None? && b.stop.None? && Net(ThenGen(a, b).code) == Net(a.code) + Net(b.code)
  {
    NetAppend(a.code, b.code);
    InBodyAppend(a.code, b.code);
  }

  /** Three parts joined, the first two first. */
  lemma ThenGen3Body(a: Gen, b: Gen, c: Gen)
    ensures AllInBody(a.code) && AllInBody(b.code) && AllInBody(c.code) ==> AllInBody(ThenGen(ThenGen(a, b), c).code)
    ensures ThenGen(ThenGen(a, b), c).stop.None? ==>
              a.stop.None? && b.stop.None? && c.stop.None? &&
              Net(ThenGen(ThenGen(a, b), c).code) == Net(a.code) + Net(b.code) + Net(c.code)
  {
    ThenGenBody(a, b);
    ThenGenBody(ThenGen(a, b), c);
  }

  // ---------------------------------------------------------------------------
  // Expressions
  // ---------------------------------------------------------------------------

  /**
   * Every call in the expression passes as many arguments as its callee has
   * register parameters, so that the pops of CodeWriter_CallFunction take
   * exactly the values the arguments pushed.
   */
  predicate Balanced(env: Env, e: Expr)
    decreases ExprSize(e), 1
  {
    match e
    case Ident(n, Some(ListExp(args))) =>
      BalancedArgs(env, args) &&
      (match FunctionIndex(env.prog.functions, n)
       case None => true
       case Some(i) => |args| == RegisterParams(ParamCount(env.prog.functions[i])))
    case ArrayLR(_, i) => Balanced(env, i)
    case Addsub(_, l, r) => Balanced(env, l) && Balanced(env, r)
    case Divstar(_, l, r) => Balanced(env, l) && Balanced(env, r)
    case _ => true
  }

  predicate BalancedArgs(env: Env, args: seq<Expr>)
    decreases ArgsSize(args), 2
  {
    |args| == 0 || (BalancedArgs(env, args[..|args| - 1]) && Balanced(env, args[|args| - 1]))
  }

  /**
   * TreeReader_Expr: both operands, then the operator; a name is loaded (or
   * called); a literal is pushed. Any other node, an indexed element
   * included, fails the assertion of the default case. Whatever it writes
   * stays inside the frame, and on balanced calls it pushes exactly one value.
   */
  function ExprGen(env: Env, e: Expr): (o: Gen)
    ensures AllInBody(o.code)
    ensures o.stop.None? && Balanced(env, e) ==> Net(o.code) == 1
    decreases ExprSize(e), 2
  {
    match e
    case Addsub(op, l, r) =>
      ThenGen3Body(ExprGen(env, l), ExprGen(env, r), OpeGen(op));
      ThenGen(ThenGen(ExprGen(env, l), ExprGen(env, r)), OpeGen(op))
    case Divstar(op, l, r) =>
      ThenGen3Body(ExprGen(env, l), ExprGen(env, r), OpeGen(op));
      ThenGen(ThenGen(ExprGen(env, l), ExprGen(env, r)), OpeGen(op))
    case Ident(n, call) => LoadVarGen(env, n, call)
    case Num(v) => Emitted(ConstantCode(v))
    case Character(b) => Emitted(ConstantCode(b))
    case _ => Aborts()
  }

  /** CodeWriter_Ope, whose operator assertion aborts on anything but the five arithmetic operators. */
  function OpeGen(op: char): (o: Gen)
    ensures AllInBody(o.code)
    ensures o.stop.None? ==> Net(o.code) == -1
  {
    match OpeCode(op)
    case None => Aborts()
    case Some(c) => Emitted(c)
  }

  /** SymbolTable_resolve_from_node exiting on an undeclared name: the message printed, nothing written. */
  function ExitGen(code: ErrorKind): Gen {
    Gen([], [code], Some(Exited(code)))
  }

  /**
   * CodeWriter_LoadVar: a function is called; a value without a child is
   * pushed; an array without a child has its address pushed. A value with
   * call syntax fails the assertion of _CodeWriter_LoadValue, an array with
   * one that of _CodeWriter_LoadArray, and any other kind the last branch.
   */
  function LoadVarGen(env: Env, n: Name, call: Option<CallArgs>): (o: Gen)
    ensures AllInBody(o.code)
    ensures o.stop.None? && Balanced(env, Ident(n, call)) ==> Net(o.code) == 1
    decreases ExprSize(Ident(n, call)), 1
  {
    match ResolveFromNode(env.prog, env.func, n)
    case Exit(code) => ExitGen(code)
    case Found(sym) =>
      if sym.kind == Function then CallGen(env, n, call)
      else if sym.kind == Value then (if call.None? then Emitted(LoadValueCode(sym)) else Aborts())
      else if sym.kind == Array then (if call.None? then Emitted(LoadArrayAddressCode(sym)) else Aborts())
      else Aborts()
  }

  /**
   * CodeWriter_CallFunction: it asserts call syntax. With an argument list,
   * the arguments are evaluated last to first, then the callee's table is
   * looked up by name and its parameter count read (a missing table is a
   * NULL dereference) to pop the register parameters; then the call.
   */
  function CallGen(env: Env, n: Name, call: Option<CallArgs>): (o: Gen)
    ensures AllInBody(o.code)
    ensures o.stop.None? && Balanced(env, Ident(n, call)) ==> Net(o.code) == 1
    decreases ExprSize(Ident(n, call)), 0
  {
    match call
    case None => Aborts()
    case Some(EmptyArgs) => Emitted(CallTail(n, false, 0))
    case Some(ListExp(args)) =>
      var tail :=
        match FunctionIndex(env.prog.functions, n)
        case None => Aborts()
        case Some(i) => Emitted(CallTail(n, true, ParamCount(env.prog.functions[i])));
      ThenGenBody(ArgsGen(env, args), tail);
      ThenGen(ArgsGen(env, args), tail)
  }

  /** _CodeWriter_CallFunction_aux: the rest of the list first, then the head; one value per argument. */
  function ArgsGen(env: Env, args: seq<Expr>): (o: Gen)
    ensures AllInBody(o.code)
    ensures o.stop.None? && BalancedArgs(env, args) ==> Net(o.code) == |args|
    decreases ArgsSize(args), 3
  {
    if |args| == 0 then Emitted([])
    else
      ThenGenBody(ExprGen(env, args[|args| - 1]), ArgsGen(env, args[..|args| - 1]));
      ThenGen(ExprGen(env, args[|args| - 1]), ArgsGen(env, args[..|args| - 1]))
  }

  // ---------------------------------------------------------------------------
  // Statements
  // ---------------------------------------------------------------------------

  /**
   * CodeWriter_WriteVar: the target must be a name or an indexed element; a
   * value is stored from the top of the stack (a plain name only), an array
   * element through its computed address; any other kind aborts.
   */
  function WriteVarGen(env: Env, target: Expr): (o: Gen)
    ensures AllInBody(o.code)
    ensures o.stop.None? && Balanced(env, target) ==> Net(o.code) == -1
  {
    if !(target.Ident? || target.ArrayLR?) then Aborts()
    else
      match ResolveFromNode(env.prog, env.func, target.ident)
      case Exit(code) => ExitGen(code)
      case Found(sym) =>
        if sym.kind == Value then
          (if target.Ident? then Emitted(StoreValueCode(sym)) else Aborts())
        else if sym.kind == Array then
          (if target.ArrayLR? then
             ThenGenBody(ExprGen(env, target.index), Emitted(StoreElementCode(sym)));
             ThenGen(ExprGen(env, target.index), Emitted(StoreElementCode(sym)))
           else Aborts())
        else Aborts()
  }

  /**
   * _Instr_Return: the function's own symbol is looked up among the globals
   * (a missing one is a NULL dereference). A non-void function's expression
   * is evaluated into rax; without one a warning is printed. Nothing jumps
   * to the epilogue.
   */
  function ReturnGen(env: Env, result: Option<Expr>): (o: Gen)
    ensures AllInBody(o.code)
    ensures o.stop.None? && (result.Some? ==> Balanced(env, result.value)) ==> Net(o.code) == 0
  {
    match Get(env.prog.globals, env.func.identifier)
    case None => Aborts()
    case Some(sym) =>
      if sym.ty != Void then
        if result.Some? then
          Net1(Pop(Reg(RAX)));
          ThenGenBody(ExprGen(env, result.value), Emitted([Pop(Reg(RAX))]));
          ThenGen(ExprGen(env, result.value), Emitted([Pop(Reg(RAX))]))
        else Gen([], [WarnReturnWithoutValue], None)
      else Emitted([])
  }

  /** The expression nodes TreeReader_SuiteInst evaluates when they stand as statements. */
  predicate Evaluated(e: Expr) {
    e.Addsub? || e.Divstar? || e.Character? || e.Num? || e.Ident?
  }

  /** An expression statement that TreeReader_SuiteInst evaluates leaves its value on the stack. */
  function Leaves(s: Stmt): nat {
    if s.ExprStmt? && Evaluated(s.expr) then 1 else 0
  }

  predicate StmtBalanced(env: Env, s: Stmt) {
    match s
    case Return(Some(e)) => Balanced(env, e)
    case Assignation(t, src) => Balanced(env, t) && Balanced(env, src)
    case ExprStmt(e) => Balanced(env, e)
    case _ => true
  }

  /** One statement of TreeReader_SuiteInst; the statements it does not handle are skipped. */
  function StmtGen(env: Env, s: Stmt): (o: Gen)
    ensures AllInBody(o.code)
    ensures o.stop.None? && StmtBalanced(env, s) ==> Net(o.code) == Leaves(s)
  {
    match s
    case Return(r) => ReturnGen(env, r)
    case Assignation(t, src) =>
      ThenGenBody(ExprGen(env, src), WriteVarGen(env, t));
      ThenGen(ExprGen(env, src), WriteVarGen(env, t))
    case ExprStmt(e) => if Evaluated(e) then ExprGen(env, e) else Emitted([])
    case OtherStmt(_) => Emitted([])
  }

  function LeftOnStack(body: seq<Stmt>): nat
    decreases |body|
  {
    if |body| == 0 then 0 else LeftOnStack(body[..|body| - 1]) + Leaves(body[|body| - 1])
  }

  /**
   * TreeReader_SuiteInst: the statements in order. What the statements leave
   * on the stack adds up: nothing pops the value of an expression statement.
   */
  function SuiteGen(env: Env, body: seq<Stmt>): (o: Gen)
    ensures AllInBody(o.code)
    ensures o.stop.None? && (forall k :: 0 <= k < |body| ==> StmtBalanced(env, body[k])) ==> Net(o.code) == LeftOnStack(body)
    decreases |body|
  {
    if |body| == 0 then Emitted([])
    else
      ThenGenBody(SuiteGen(env, body[..|body| - 1]), StmtGen(env, body[|body| - 1]));
      ThenGen(SuiteGen(env, body[..|body| - 1]), StmtGen(env, body[|body| - 1]))
  }

  // ---------------------------------------------------------------------------
  // Functions and the program
  // ---------------------------------------------------------------------------

  /** The prologue of CodeWriter_stackFrame_start, which stops at a NULL parameter. */
  function PrologueGen(f: FunctionTable): (g: Gen)
    ensures |g.code| >= 1 && g.code[0] == Label(f.identifier) && g.printed == []
    ensures g.stop.None? <==> FrameStartCode(f).complete
    ensures g.stop.Some? ==> g.stop == Some(Aborted)
  {
    var pro := FrameStartCode(f);
    Gen([Label(f.identifier)] + pro.code, [], if pro.complete then None else Some(Aborted))
  }

  /** The prologue alone, as CodeWriter_stackFrame_start writes it. */
  function FrameGen(f: FunctionTable): Gen {
    var pro := FrameStartCode(f);
    Gen(pro.code, [], if pro.complete then None else Some(Aborted))
  }

  /** _TreeReader_Corps: the prologue, the statements, the epilogue and `ret`. */
  function CorpsGen(p: Program, f: FunctionTable, body: seq<Stmt>): (g: Gen)
    ensures !FrameStartCode(f).complete ==> g == Gen(FrameStartCode(f).code, [], Some(Aborted))
    ensures g.stop.None? ==> FrameStartCode(f).complete && g.printed == SuiteGen(Env(p, f), body).printed
    ensures g.stop.None? ==> |g.code| >= 3 && g.code[|g.code| - 3..] == FrameEndCode() + [Ret]
  {
    ThenGen(ThenGen(FrameGen(f), SuiteGen(Env(p, f), body)), Emitted(FrameEndCode() + [Ret]))
  }

  /** A part of the walk written after a label. */
  function Labelled(l: Name, g: Gen): Gen {
    Gen([Label(l)] + g.code, g.printed, g.stop)
  }

  /**
   * _TreeReader_DeclFonct and _TreeReader_Corps: the function label, the
   * prologue, the statements, the epilogue and `ret`. The function's table
   * is the first one with its name (a missing one is a NULL dereference).
   */
  function FunctionGen(p: Program, d: DeclFonct): (g: Gen)
    ensures FunctionIndex(p.functions, d.ident).None? ==> g == Aborts()
    ensures g.stop.None? ==> FunctionIndex(p.functions, d.ident).Some? && |g.code| >= 3 && g.code[|g.code| - 3..] == FrameEndCode() + [Ret]
  {
    match FunctionIndex(p.functions, d.ident)
    case None => Aborts()
    case Some(i) =>
      var f := p.functions[i];
      ThenGen(ThenGen(PrologueGen(f), SuiteGen(Env(p, f), d.body)), Emitted(FrameEndCode() + [Ret]))
  }

  /** The parts in order, each unless one before it stopped the process. */
  function Chain(gs: seq<Gen>): Gen
    decreases |gs|
  {
    if |gs| == 0 then Emitted([])
    else
      var a, b := Chain(gs[..|gs| - 1]), gs[|gs| - 1];
      if a.stop.Some? then a else Gen(a.code + b.code, a.printed + b.printed, b.stop)
  }

  function FunctionGens(p: Program, ds: seq<DeclFonct>): (gs: seq<Gen>)
    ensures |gs| == |ds| && forall i :: 0 <= i < |ds| ==> gs[i] == FunctionGen(p, ds[i])
  {
    seq(|ds|, i requires 0 <= i < |ds| => FunctionGen(p, ds[i]))
  }

  /** _TreeReader_DeclFoncts: the functions in declaration order. */
  function FunctionsGen(p: Program, ds: seq<DeclFonct>): (g: Gen)
    ensures |ds| == 0 ==> g == Gen([], [], None)
    ensures g.stop.None? && |ds| > 0 ==> FunctionGen(p, ds[|ds| - 1]).stop.None? && |g.code| >= 1 && g.code[|g.code| - 1] == Ret
  {
    Chain(FunctionGens(p, ds))
  }

  /** TreeReader_Prog: the file header, then the functions. */
  function ProgGen(p: Program, t: Prog): (g: Gen)
    ensures p.globals.kind != Global ==> g == Aborts()
    ensures p.globals.kind == Global ==>
      var h := InitFileCode(p.globals).value;
      |g.code| >= |h| && g.code[..|h|] == h && g.stop == FunctionsGen(p, t.funcs).stop
  {
    match InitFileCode(p.globals)
    case None => Aborts()
    case Some(h) => ThenGen(Emitted(h), FunctionsGen(p, t.funcs))
  }

  // ---------------------------------------------------------------------------
  // The frame of a compiled function
  // ---------------------------------------------------------------------------

  /** The prologue is the label, the frame opening and the parameter moves. */
  lemma PrologueParts(f: FunctionTable)
    ensures PrologueGen(f).code == ([Label(f.identifier)] + FrameOpen(f)) + SaveParams(f, RegisterParams(ParamCount(f))).code
  {
    FrameStartParts(f);
    Assoc([Label(f.identifier)], FrameOpen(f), SaveParams(f, RegisterParams(ParamCount(f))).code);
  }

  /** The frame facts for any body code that leaves rbp and rsp to the pushes and pops. */
  lemma FrameShape(c: seq<Instr>, f: FunctionTable, saves: seq<Instr>, body: seq<Instr>, sp: int, bp: int)
    requires AllInBody(saves) && AllInBody(body)
    requires c == ((([Label(f.identifier)] + FrameOpen(f)) + saves) + body) + (FrameEndCode() + [Ret])
    ensures |c| >= 1 && c[0] == Label(f.identifier) && c[|c| - 1] == Ret
    ensures TrackAll(c[..|c| - 1], sp, bp).0 == sp
    ensures forall k :: 0 <= k < |c| - 1 ==> c[k] != Ret
  {
    var head := [Label(f.identifier)] + FrameOpen(f);
    var pro := head + saves;
    var g1 := pro + body;
    assert c[..|c| - 1] == g1 + FrameEndCode();
    TrackAppend(g1, FrameEndCode(), sp, bp);
    TrackAppend(pro, body, sp, bp);
    TrackAppend(head, saves, sp, bp);
    TrackPrologue(f.identifier, f, sp, bp);
    TrackSafe(saves, sp + 8 + f.locals.nextAddr, sp + 8);
    TrackSafe(body, TrackAll(pro, sp, bp).0, sp + 8);
    TrackEpilogue(TrackAll(g1, sp, bp).0, sp + 8);
    forall k | 0 <= k < |c| - 1 ensures c[k] != Ret {
      if k < |head| {
        assert c[k] == head[k];
      } else if k < |pro| {
        assert c[k] == saves[k - |head|];
        assert InBody(saves[k - |head|]);
      } else if k < |g1| {
        assert c[k] == body[k - |pro|];
        assert InBody(body[k - |pro|]);
      } else {
        assert c[k] == FrameEndCode()[k - |g1|];
      }
    }
  }

  /**
   * A function the walk compiles to the end starts at its label and ends at
   * its only `ret`; the epilogue puts the stack pointer back where it was on
   * entry, whatever the statements left on the stack, so that `ret` finds
   * the return address the call pushed.
   */
  lemma FunctionParts(p: Program, d: DeclFonct)
    requires FunctionGen(p, d).stop.None?
    ensures FunctionIndex(p.functions, d.ident).Some?
    ensures var f := p.functions[FunctionIndex(p.functions, d.ident).value];
      FunctionGen(p, d).code == (PrologueGen(f).code + SuiteGen(Env(p, f), d.body).code) + (FrameEndCode() + [Ret])
  {
  }

  /** A function the walk compiles to the end ends at `ret`, and at no `ret` before it. */
  lemma FunctionReturnsOnce(p: Program, d: DeclFonct)
    requires FunctionGen(p, d).stop.None?
    ensures |FunctionGen(p, d).code| >= 1 && FunctionGen(p, d).code[|FunctionGen(p, d).code| - 1] == Ret
    ensures forall k :: 0 <= k < |FunctionGen(p, d).code| - 1 ==> FunctionGen(p, d).code[k] != Ret
  {
    FunctionParts(p, d);
    var f := p.functions[FunctionIndex(p.functions, d.ident).value];
    SaveParamsInBody(f, RegisterParams(ParamCount(f)));
    PrologueParts(f);
    FrameShape(FunctionGen(p, d).code, f, SaveParams(f, RegisterParams(ParamCount(f))).code, SuiteGen(Env(p, f), d.body).code, 0, 0);
  }

  /** The stack pointer is back where it was on entry when `ret` runs, whatever the statements left on the stack. */
  lemma FunctionRestoresStack(p: Program, d: DeclFonct, sp: int, bp: int)
    requires FunctionGen(p, d).stop.None?
    ensures |FunctionGen(p, d).code| >= 1
    ensures TrackAll(FunctionGen(p, d).code[..|FunctionGen(p, d).code| - 1], sp, bp).0 == sp
  {
    var c := FunctionGen(p, d).code;
    FunctionLayout(p, d);
    var f := p.functions[FunctionIndex(p.functions, d.ident).value];
    var saves, body := SaveParams(f, RegisterParams(ParamCount(f))).code, SuiteGen(Env(p, f), d.body).code;
    FrameTrack(c, f, saves, body, sp, bp);
  }

  /** The stack-pointer half of FrameShape, on its own. */
  lemma FrameTrack(c: seq<Instr>, f: FunctionTable, saves: seq<Instr>, body: seq<Instr>, sp: int, bp: int)
    requires AllInBody(saves) && AllInBody(body)
    requires c == ((([Label(f.identifier)] + FrameOpen(f)) + saves) + body) + (FrameEndCode() + [Ret])
    ensures |c| >= 1 && TrackAll(c[..|c| - 1], sp, bp).0 == sp
  {
    FrameShape(c, f, saves, body, sp, bp);
  }

  /** The code of a function the walk compiles to the end, part by part. */
  lemma FunctionLayout(p: Program, d: DeclFonct)
    requires FunctionGen(p, d).stop.None?
    ensures FunctionIndex(p.functions, d.ident).Some?
    ensures var f := p.functions[FunctionIndex(p.functions, d.ident).value];
      AllInBody(SaveParams(f, RegisterParams(ParamCount(f))).code) && AllInBody(SuiteGen(Env(p, f), d.body).code)
    ensures var f := p.functions[FunctionIndex(p.functions, d.ident).value];
      FunctionGen(p, d).code ==
        ((([Label(f.identifier)] + FrameOpen(f)) + SaveParams(f, RegisterParams(ParamCount(f))).code) + SuiteGen(Env(p, f), d.body).code) + (FrameEndCode() + [Ret])
  {
    FunctionParts(p, d);
    var f := p.functions[FunctionIndex(p.functions, d.ident).value];
    SaveParamsInBody(f, RegisterParams(ParamCount(f)));
    PrologueParts(f);
  }

  // ---------------------------------------------------------------------------
  // What the arithmetic computes
  // ---------------------------------------------------------------------------

  /** Literals combined by `+`, `-` and `*`: the expressions whose code runs on the register machine alone. */
  predicate ConstArith(e: Expr) {
    match e
    case Num(_) => true
    case Character(_) => true
    case Addsub(op, l, r) => (op == '+' || op == '-') && ConstArith(l) && ConstArith(r)
    case Divstar(op, l, r) => op == '*' && ConstArith(l) && ConstArith(r)
    case _ => false
  }

  /** The exact integer value of such an expression. */
  function MathValue(e: Expr): int
    requires ConstArith(e)
  {
    match e
    case Num(v) => v
    case Character(b) => b
    case Addsub(op, l, r) => ArithValue(ArithOf(op), MathValue(l), MathValue(r))
    case Divstar(op, l, r) => ArithValue(ArithOf(op), MathValue(l), MathValue(r))
  }

  /** The generated code of a literal expression pushes its exact value reduced modulo 2^64, and touches nothing below. */
  lemma {:induction false} ExprComputes(env: Env, e: Expr, s: seq<int>, regs: map<Register, int>)
    requires ConstArith(e)
    ensures ExprGen(env, e).stop.None?
    ensures Run(ExprGen(env, e).code, Machine(regs, s)).Some?
    ensures Run(ExprGen(env, e).code, Machine(regs, s)).value.stack == s + [Wrap64(MathValue(e))]
    decreases e, 1
  {
    match e
    case Num(v) =>
      assert [Push(Imm(v))][..0] == [];
    case Character(b) =>
      assert [Push(Imm(b))][..0] == [];
    case Addsub(op, l, r) =>
      BinaryComputes(env, e, s, regs);
    case Divstar(op, l, r) =>
      BinaryComputes(env, e, s, regs);
  }

  lemma BinaryParts(env: Env, e: Expr)
    requires e.Addsub? || e.Divstar?
    requires ExprGen(env, e.left).stop.None? && ExprGen(env, e.right).stop.None? && e.op in "+-*"
    ensures ExprGen(env, e).stop.None?
    ensures ExprGen(env, e).code == (ExprGen(env, e.left).code + ExprGen(env, e.right).code) + OpeCode(e.op).value
  {
  }

  lemma {:induction false} BinaryComputes(env: Env, e: Expr, s: seq<int>, regs: map<Register, int>)
    requires ConstArith(e) && (e.Addsub? || e.Divstar?)
    ensures ExprGen(env, e).stop.None?
    ensures Run(ExprGen(env, e).code, Machine(regs, s)).Some?
    ensures Run(ExprGen(env, e).code, Machine(regs, s)).value.stack == s + [Wrap64(MathValue(e))]
    decreases e, 0
  {
    var l, r := e.left, e.right;
    ExprComputes(env, l, s, regs);
    var m0 := Machine(regs, s);
    var m1 := Run(ExprGen(env, l).code, m0).value;
    var vl := Wrap64(MathValue(l));
    assert Machine(m1.regs, s + [vl]) == m1;
    ExprComputes(env, r, s + [vl], m1.regs);
    var m2 := Run(ExprGen(env, r).code, m1).value;
    var vr := Wrap64(MathValue(r));
    BinaryParts(env, e);
    BinaryStep(ExprGen(env, l).code, ExprGen(env, r).code, e.op, m0, m1, m2, s, vl, vr);
    WrapArith(ArithOf(e.op), MathValue(l), MathValue(r));
  }

  // ---------------------------------------------------------------------------
  // The calling convention
  // ---------------------------------------------------------------------------

  predicate ConstArgs(args: seq<Expr>) {
    forall k :: 0 <= k < |args| ==> ConstArith(args[k])
  }

  /** The register values of literal arguments. */
  function ArgValues(args: seq<Expr>): (vs: seq<int>)
    requires ConstArgs(args)
    ensures |vs| == |args|
  {
    seq(|args|, k requires 0 <= k < |args| && ConstArith(args[k]) => Wrap64(MathValue(args[k])))
  }

  lemma ArgValuesLast(args: seq<Expr>)
    requires ConstArgs(args) && |args| > 0
    ensures ConstArgs(args[..|args| - 1])
    ensures Reversed(ArgValues(args)) == [Wrap64(MathValue(args[|args| - 1]))] + Reversed(ArgValues(args[..|args| - 1]))
  {
    var pre := args[..|args| - 1];
    assert ConstArgs(pre) by {
      forall k | 0 <= k < |pre| ensures ConstArith(pre[k]) {
        assert pre[k] == args[k];
      }
    }
    assert ArgValues(args)[..|args| - 1] == ArgValues(pre);
  }

  lemma ArgsParts(env: Env, args: seq<Expr>)
    requires |args| > 0 && ExprGen(env, args[|args| - 1]).stop.None?
    ensures ArgsGen(env, args).stop == ArgsGen(env, args[..|args| - 1]).stop
    ensures ArgsGen(env, args).code == ExprGen(env, args[|args| - 1]).code + ArgsGen(env, args[..|args| - 1]).code
  {
  }

  /** The argument code pushes the values of the arguments, the last one deepest. */
  lemma {:induction false} ArgsComputes(env: Env, args: seq<Expr>, s: seq<int>, regs: map<Register, int>)
    requires ConstArgs(args)
    ensures ArgsGen(env, args).stop.None?
    ensures Run(ArgsGen(env, args).code, Machine(regs, s)).Some?
    ensures Run(ArgsGen(env, args).code, Machine(regs, s)).value.stack == s + Reversed(ArgValues(args))
    decreases |args|
  {
    if |args| == 0 {
      assert ArgsGen(env, args).code == [];
    } else {
      var last, pre := args[|args| - 1], args[..|args| - 1];
      var m0 := Machine(regs, s);
      ExprComputes(env, last, s, regs);
      var m1 := Run(ExprGen(env, last).code, m0).value;
      var vl := Wrap64(MathValue(last));
      assert Machine(m1.regs, s + [vl]) == m1;
      ArgValuesLast(args);
      ArgsComputes(env, pre, s + [vl], m1.regs);
      ArgsParts(env, args);
      var m2 := Run(ArgsGen(env, pre).code, m1).value;
      RunThen(ExprGen(env, last).code, ArgsGen(env, pre).code, m0, m1, m2);
      StackAssoc(s, [vl], Reversed(ArgValues(pre)));
    }
  }

  /**
   * A call with literal arguments, as many as the callee's register
   * parameters: the code ends with the `call` and the push of rax, and up to
   * the `call` it leaves the stack where it was and the `j`-th parameter
   * register holding the value of the `j`-th argument.
   */
  lemma CallPassesArguments(env: Env, n: Name, args: seq<Expr>, s: seq<int>, regs: map<Register, int>)
    requires ConstArgs(args)
    requires FunctionIndex(env.prog.functions, n).Some?
    requires |args| == RegisterParams(ParamCount(env.prog.functions[FunctionIndex(env.prog.functions, n).value]))
    ensures CallGen(env, n, Some(ListExp(args))).stop.None?
    ensures |CallGen(env, n, Some(ListExp(args))).code| >= 2
    ensures var c := CallGen(env, n, Some(ListExp(args))).code; c[|c| - 2..] == [Call(n), Push(Reg(RAX))]
    ensures var c := CallGen(env, n, Some(ListExp(args))).code; LoadsArgs(Run(c[..|c| - 2], Machine(regs, s)), s, ArgValues(args))
  {
    var count := ParamCount(env.prog.functions[FunctionIndex(env.prog.functions, n).value]);
    var g := CallGen(env, n, Some(ListExp(args)));
    ArgsComputes(env, args, s, regs);
    CallParts(env, n, args);
    CallRuns(g.code, ArgsGen(env, args).code, n, count, regs, s, ArgValues(args));
  }

  /** Argument code that pushes `vs` last to first, then the tail of the call. */
  lemma CallRuns(c: seq<Instr>, args: seq<Instr>, n: Name, count: nat, regs: map<Register, int>, s: seq<int>, vs: seq<int>)
    requires c == args + CallTail(n, true, count) && |vs| == RegisterParams(count)
    requires Run(args, Machine(regs, s)).Some? && Run(args, Machine(regs, s)).value.stack == s + Reversed(vs)
    ensures |c| >= 2 && c[|c| - 2..] == [Call(n), Push(Reg(RAX))]
    ensures LoadsArgs(Run(c[..|c| - 2], Machine(regs, s)), s, vs)
  {
    var m1 := Run(args, Machine(regs, s)).value;
    assert m1 == Machine(m1.regs, s + Reversed(vs));
    CallLoads(c, args, n, count, Machine(regs, s), m1.regs, s, vs);
  }

  lemma CallParts(env: Env, n: Name, args: seq<Expr>)
    requires FunctionIndex(env.prog.functions, n).Some? && ArgsGen(env, args).stop.None?
    ensures CallGen(env, n, Some(ListExp(args))).stop.None?
    ensures CallGen(env, n, Some(ListExp(args))).code ==
              ArgsGen(env, args).code + CallTail(n, true, ParamCount(env.prog.functions[FunctionIndex(env.prog.functions, n).value]))
  {
  }

  // ---------------------------------------------------------------------------
  // The layout of the output
  // ---------------------------------------------------------------------------

  /** A chain is its parts but the last, then the last part. */
  lemma ChainLast(gs: seq<Gen>)
    requires |gs| > 0
    ensures Chain(gs).stop.None? <==> Chain(gs[..|gs| - 1]).stop.None? && gs[|gs| - 1].stop.None?
    ensures Chain(gs).stop.None? ==> Chain(gs).code == Chain(gs[..|gs| - 1]).code + gs[|gs| - 1].code
  {
  }

  /** A chain that runs to its end is a first part of it, then the rest. */
  lemma {:induction false} ChainSplit(gs: seq<Gen>, k: nat)
    requires k <= |gs| && Chain(gs).stop.None?
    ensures Chain(gs[..k]).stop.None? && Chain(gs[k..]).stop.None?
    ensures Chain(gs).code == Chain(gs[..k]).code + Chain(gs[k..]).code
    decreases |gs|
  {
    if k == |gs| {
      assert gs[..k] == gs;
      assert gs[k..] == [];
    } else {
      var pre, last := gs[..|gs| - 1], gs[|gs| - 1];
      ChainLast(gs);
      ChainSplit(pre, k);
      assert pre[..k] == gs[..k];
      var rest := gs[k..];
      assert rest[..|rest| - 1] == pre[k..];
      assert rest[|rest| - 1] == last;
      ChainLast(rest);
      Assoc(Chain(gs[..k]).code, Chain(pre[k..]).code, last.code);
    }
  }

  lemma FunctionGensSlices(p: Program, ds: seq<DeclFonct>, k: nat)
    requires k <= |ds|
    ensures FunctionGens(p, ds)[..k] == FunctionGens(p, ds[..k])
    ensures FunctionGens(p, ds)[k..] == FunctionGens(p, ds[k..])
  {
    var gs := FunctionGens(p, ds);
    forall i | 0 <= i < k ensures gs[..k][i] == FunctionGens(p, ds[..k])[i] {
      assert ds[..k][i] == ds[i];
    }
    forall i | 0 <= i < |ds| - k ensures gs[k..][i] == FunctionGens(p, ds[k..])[i] {
      assert ds[k..][i] == ds[k + i];
    }
  }

  /** Compiling a list of functions is compiling a first part of it, then the rest. */
  lemma FunctionsSplit(p: Program, ds: seq<DeclFonct>, k: nat)
    requires k <= |ds| && FunctionsGen(p, ds).stop.None?
    ensures FunctionsGen(p, ds[..k]).stop.None? && FunctionsGen(p, ds[k..]).stop.None?
    ensures FunctionsGen(p, ds).code == FunctionsGen(p, ds[..k]).code + FunctionsGen(p, ds[k..]).code
  {
    var gs := FunctionGens(p, ds);
    ChainSplit(gs, k);
    FunctionGensSlices(p, ds, k);
  }

  /** A chain that runs to its end is its first part, then the rest. */
  lemma ChainFirst(gs: seq<Gen>)
    requires |gs| > 0 && Chain(gs).stop.None?
    ensures gs[0].stop.None? && Chain(gs).code == gs[0].code + Chain(gs[1..]).code
  {
    ChainSplit(gs, 1);
    var one := gs[..1];
    assert one[..|one| - 1] == [];
    assert one[|one| - 1] == gs[0];
    assert Chain(one) == ThenGen(Emitted([]), gs[0]);
    assert Chain(one).code == [] + gs[0].code == gs[0].code;
  }

  /** The code of the first function comes first. */
  lemma FunctionsFirst(p: Program, ds: seq<DeclFonct>)
    requires |ds| > 0 && FunctionsGen(p, ds).stop.None?
    ensures |FunctionsGen(p, ds).code| >= 1 && FunctionsGen(p, ds).code[0] == Label(ds[0].ident)
  {
    var gs := FunctionGens(p, ds);
    ChainFirst(gs);
    FunctionLabel(p, ds[0]);
    HeadFirst(gs[0].code, Chain(gs[1..]).code);
  }

  /** A function the walk compiles to the end starts at its label. */
  lemma FunctionLabel(p: Program, d: DeclFonct)
    requires FunctionGen(p, d).stop.None?
    ensures |FunctionGen(p, d).code| >= 1 && FunctionGen(p, d).code[0] == Label(d.ident)
  {
    FunctionParts(p, d);
    var f := p.functions[FunctionIndex(p.functions, d.ident).value];
    PrologueParts(f);
    HeadFirst([Label(f.identifier)], FrameOpen(f));
    HeadFirst([Label(f.identifier)] + FrameOpen(f), SaveParams(f, RegisterParams(ParamCount(f))).code);
    HeadFirst(PrologueGen(f).code, SuiteGen(Env(p, f), d.body).code);
    HeadFirst(PrologueGen(f).code + SuiteGen(Env(p, f), d.body).code, FrameEndCode() + [Ret]);
  }

  lemma HeadFirst(a: seq<Instr>, b: seq<Instr>)
    requires |a| >= 1
    ensures |a + b| >= 1 && (a + b)[0] == a[0]
  {
  }

  lemma ProgParts(p: Program, t: Prog)
    requires ProgGen(p, t).stop.None?
    ensures InitFileCode(p.globals).Some? && FunctionsGen(p, t.funcs).stop.None?
    ensures ProgGen(p, t).code == InitFileCode(p.globals).value + FunctionsGen(p, t.funcs).code
  {
  }

  /** The file TreeReader_Prog writes starts with the header of the globals and the entry point, then the first function's label. */
  lemma ProgLayout(p: Program, t: Prog)
    requires ProgGen(p, t).stop.None?
    ensures p.globals.kind == Global
    ensures var c := ProgGen(p, t).code;
      |c| >= 6 && c[0] == Header(Externs(), p.globals.nextAddr) && c[1..6] == EntryCode() &&
      (|t.funcs| > 0 ==> |c| > 6 && c[6] == Label(t.funcs[0].ident))
  {
    ProgParts(p, t);
    if |t.funcs| > 0 {
      FunctionsFirst(p, t.funcs);
    }
    HeadThenRest(InitFileCode(p.globals).value, FunctionsGen(p, t.funcs).code);
  }

  lemma HeadThenRest(h: seq<Instr>, rest: seq<Instr>)
    requires |h| == 6
    ensures (h + rest)[..6] == h
    ensures |rest| > 0 ==> (h + rest)[6] == rest[0]
  {
  }

  // ---------------------------------------------------------------------------
  // The walk, writing to the output as it goes
  // ---------------------------------------------------------------------------

  /** A chain one part longer: the part follows, unless the chain already stopped. */
  lemma ChainNext(gs: seq<Gen>, k: nat)
    requires k < |gs|
    ensures Chain(gs[..k + 1]) == ThenGen(Chain(gs[..k]), gs[k])
  {
    var pre := gs[..k + 1];
    assert pre[..|pre| - 1] == gs[..k];
  }

  /** Once a chain has stopped, the later parts change nothing. */
  lemma {:induction false} ChainRest(gs: seq<Gen>, k: nat)
    requires k <= |gs| && (k == |gs| || Chain(gs[..k]).stop.Some?)
    ensures Chain(gs) == Chain(gs[..k])
    decreases |gs|
  {
    if k == |gs| {
      assert gs[..k] == gs;
    } else {
      var pre := gs[..|gs| - 1];
      assert pre[..k] == gs[..k];
      ChainRest(pre, k);
    }
  }

  lemma FunctionsNext(p: Program, ds: seq<DeclFonct>, i: nat)
    requires i < |ds|
    ensures FunctionsGen(p, ds[..i + 1]) == ThenGen(FunctionsGen(p, ds[..i]), FunctionGen(p, ds[i]))
  {
    var gs := FunctionGens(p, ds);
    FunctionGensSlices(p, ds, i + 1);
    FunctionGensSlices(p, ds, i);
    ChainNext(gs, i);
    assert gs[..i + 1][..i] == gs[..i];
    assert gs[..i + 1][i] == gs[i];
  }

  lemma FunctionsRest(p: Program, ds: seq<DeclFonct>, i: nat)
    requires i <= |ds| && (i == |ds| || FunctionsGen(p, ds[..i]).stop.Some?)
    ensures FunctionsGen(p, ds) == FunctionsGen(p, ds[..i])
  {
    FunctionGensSlices(p, ds, i);
    ChainRest(FunctionGens(p, ds), i);
  }

  lemma SuiteNext(env: Env, body: seq<Stmt>, i: nat)
    requires i < |body|
    ensures SuiteGen(env, body[..i + 1]) == ThenGen(SuiteGen(env, body[..i]), StmtGen(env, body[i]))
  {
    var pre := body[..i + 1];
    assert pre[..|pre| - 1] == body[..i];
    assert pre[|pre| - 1] == body[i];
  }

  /** Once the statements have stopped the process, the later ones change nothing. */
  lemma {:induction false} SuiteRest(env: Env, body: seq<Stmt>, i: nat)
    requires i <= |body| && (i == |body| || SuiteGen(env, body[..i]).stop.Some?)
    ensures SuiteGen(env, body) == SuiteGen(env, body[..i])
    decreases |body|
  {
    if i == |body| {
      assert body[..i] == body;
    } else {
      var pre := body[..|body| - 1];
      assert pre[..i] == body[..i];
      SuiteRest(env, pre, i);
    }
  }

  /** A label written before three parts of the walk is a label before the whole. */
  lemma LabelThen(l: Name, a: Gen, b: Gen, c: Gen)
    ensures ThenGen(ThenGen(Labelled(l, a), b), c) == Labelled(l, ThenGen(ThenGen(a, b), c))
  {
    if a.stop.None? {
      Assoc([Label(l)], a.code, b.code);
      if b.stop.None? {
        Assoc([Label(l)], a.code + b.code, c.code);
      }
    }
  }

  /** _TreeReader_DeclFonct: the label of the function's table, then _TreeReader_Corps. */
  lemma FunctionCorps(p: Program, d: DeclFonct)
    requires FunctionIndex(p.functions, d.ident).Some?
    ensures var f := p.functions[FunctionIndex(p.functions, d.ident).value];
      FunctionGen(p, d) == Labelled(f.identifier, CorpsGen(p, f, d.body))
  {
    var f := p.functions[FunctionIndex(p.functions, d.ident).value];
    assert PrologueGen(f) == Labelled(f.identifier, FrameGen(f));
    LabelThen(f.identifier, FrameGen(f), SuiteGen(Env(p, f), d.body), Emitted(FrameEndCode() + [Ret]));
  }

  /**
   * TreeReader_SuiteInst: each statement of the chain emitted in turn, until
   * one stops the process; the result is ERR_NONE whatever the statements
   * returned.
   */
  method EmitSuiteInst(w: Writer, env: Env, body: seq<Stmt>) returns (err: ErrorSet, printed: seq<ErrorKind>, stop: Option<Stop>)
    modifies w
    ensures err == {}
    ensures w.out == old(w.out) + SuiteGen(env, body).code
    ensures printed == SuiteGen(env, body).printed && stop == SuiteGen(env, body).stop
  {
    err, printed, stop := {}, [], None;
    var i := 0;
    while i < |body| && stop.None?
      invariant 0 <= i <= |body|
      invariant w.out == old(w.out) + SuiteGen(env, body[..i]).code
      invariant printed == SuiteGen(env, body[..i]).printed && stop == SuiteGen(env, body[..i]).stop
    {
      var g := StmtGen(env, body[i]);
      SuiteNext(env, body, i);
      Assoc(old(w.out), SuiteGen(env, body[..i]).code, g.code);
      w.Emit(g.code);
      printed, stop := printed + g.printed, g.stop;
      i := i + 1;
    }
    SuiteRest(env, body, i);
  }

  /** _TreeReader_Corps: the stack frame around the statements, then `ret`; the error is the statements' ERR_NONE. */
  method EmitCorps(w: Writer, p: Program, f: FunctionTable, body: seq<Stmt>) returns (err: ErrorSet, printed: seq<ErrorKind>, stop: Option<Stop>)
    modifies w
    ensures err == {}
    ensures w.out == old(w.out) + CorpsGen(p, f, body).code
    ensures printed == CorpsGen(p, f, body).printed && stop == CorpsGen(p, f, body).stop
  {
    CorpsParts(p, f, body);
    ghost var start := w.out;
    var ok := w.StackFrameStart(f);
    if !ok {
      return {}, [], Some(Aborted);
    }
    ghost var pro := w.out;
    err, printed, stop := EmitSuiteInst(w, Env(p, f), body);
    Assoc(start, FrameStartCode(f).code, SuiteGen(Env(p, f), body).code);
    if stop.Some? {
      return;
    }
    ghost var suite := w.out;
    w.StackFrameEnd();
    w.Emit([Ret]);
    Assoc(suite, FrameEndCode(), [Ret]);
    Assoc(start, FrameStartCode(f).code + SuiteGen(Env(p, f), body).code, FrameEndCode() + [Ret]);
  }

  /** The three ways _TreeReader_Corps ends: in the prologue, in the statements, or at `ret`. */
  lemma CorpsParts(p: Program, f: FunctionTable, body: seq<Stmt>)
    ensures !FrameStartCode(f).complete ==> CorpsGen(p, f, body) == Gen(FrameStartCode(f).code, [], Some(Aborted))
    ensures FrameStartCode(f).complete && SuiteGen(Env(p, f), body).stop.Some? ==>
      CorpsGen(p, f, body) == Gen(FrameStartCode(f).code + SuiteGen(Env(p, f), body).code, SuiteGen(Env(p, f), body).printed, SuiteGen(Env(p, f), body).stop)
    ensures FrameStartCode(f).complete && SuiteGen(Env(p, f), body).stop.None? ==>
      CorpsGen(p, f, body) == Gen((FrameStartCode(f).code + SuiteGen(Env(p, f), body).code) + (FrameEndCode() + [Ret]), SuiteGen(Env(p, f), body).printed, None)
  {
    var sg := SuiteGen(Env(p, f), body);
    assert [] + sg.printed == sg.printed;
    assert (sg.printed + []) == sg.printed;
  }

  /**
   * _TreeReader_DeclFonct: the label, then the body. The table is the first
   * one with the function's name; a missing one is a NULL dereference.
   */
  method EmitDeclFonct(w: Writer, p: Program, d: DeclFonct) returns (err: ErrorSet, printed: seq<ErrorKind>, stop: Option<Stop>)
    modifies w
    ensures err == {}
    ensures w.out == old(w.out) + FunctionGen(p, d).code
    ensures printed == FunctionGen(p, d).printed && stop == FunctionGen(p, d).stop
  {
    var idx := FunctionIndex(p.functions, d.ident);
    if idx.None? {
      return {}, [], Some(Aborted);
    }
    var f := p.functions[idx.value];
    FunctionCorps(p, d);
    w.Emit([Label(f.identifier)]);
    ghost var mid := w.out;
    err, printed, stop := EmitCorps(w, p, f, d.body);
    Assoc(old(w.out), [Label(f.identifier)], CorpsGen(p, f, d.body).code);
  }

  /** _TreeReader_DeclFoncts: the functions in declaration order; the result is ERR_NONE whatever they returned. */
  method EmitDeclFoncts(w: Writer, p: Program, ds: seq<DeclFonct>) returns (err: ErrorSet, printed: seq<ErrorKind>, stop: Option<Stop>)
    modifies w
    ensures err == {}
    ensures w.out == old(w.out) + FunctionsGen(p, ds).code
    ensures printed == FunctionsGen(p, ds).printed && stop == FunctionsGen(p, ds).stop
  {
    err, printed, stop := {}, [], None;
    var i := 0;
    while i < |ds| && stop.None?
      invariant 0 <= i <= |ds|
      invariant w.out == old(w.out) + FunctionsGen(p, ds[..i]).code
      invariant printed == FunctionsGen(p, ds[..i]).printed && stop == FunctionsGen(p, ds[..i]).stop
    {
      FunctionsNext(p, ds, i);
      Assoc(old(w.out), FunctionsGen(p, ds[..i]).code, FunctionGen(p, ds[i]).code);
      var e, pr, st := EmitDeclFonct(w, p, ds[i]);
      printed, stop := printed + pr, st;
      i := i + 1;
    }
    FunctionsRest(p, ds, i);
  }

  /** TreeReader_Prog: the header of the file, then the functions. */
  method EmitProg(w: Writer, p: Program, t: Prog) returns (err: ErrorSet, printed: seq<ErrorKind>, stop: Option<Stop>)
    modifies w
    ensures err == {}
    ensures w.out == old(w.out) + ProgGen(p, t).code
    ensures printed == ProgGen(p, t).printed && stop == ProgGen(p, t).stop
  {
    var ok := w.InitFile(p.globals);
    if !ok {
      return {}, [], Some(Aborted);
    }
    err, printed, stop := EmitDeclFoncts(w, p, t.funcs);
    Assoc(old(w.out), InitFileCode(p.globals).value, FunctionsGen(p, t.funcs).code);
  }
}
