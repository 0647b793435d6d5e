/**
 * The instruction patterns of codeWriter.c. The emitter prints NASM text; here
 * the program is a sequence of abstract instructions (comments and layout
 * are not kept), each emitter function appends a fixed pattern, and a small
 * evaluator gives the arithmetic patterns their meaning on 64-bit registers.
 * The emitters that call back into the expression walk of treeReader.c
 * (calls, array elements, loads and stores by name) are in TreeReader.
 */
module CodeWriter {
  import opened Wrappers
  import opened Registers
  import opened Symbols
  import opened Scopes
  import opened SymbolTable
  import opened Lookup

  datatype ArithOp = Add | Sub | Imul

  /** The operand forms the emitter writes. */
  datatype Operand =
    | Reg(r: Register)
    | Imm(v: int)
    | Frame(offset: int)                                    // [rbp + offset]
    | Static(offset: int)                                   // [global_vars + offset]
    | StaticAddr(offset: int)                               // global_vars + offset, the address itself
    | At(base: Register)                                    // [base]
    | Indexed(base: Register, index: Register, scale: int)  // [base + index * scale]

  datatype Instr =
    | Push(src: Operand)
    | Pop(dst: Operand)
    | Mov(dst: Operand, src: Operand)
    | Lea(target: Register, addr: Operand)
    | Arith(op: ArithOp, reg: Register, src: Operand)
    | Neg(reg: Register)
    | Idiv(divisor: Register)
    | Cqo                                                   // sign-extends rax into rdx
    | Call(callee: Name)
    | Ret
    | Label(name: Name)
    | Syscall
    | Header(externs: seq<Name>, reserve: int)              // the directives, the externs and `global_vars: resb reserve`

  // ---------------------------------------------------------------------------
  // Stack effect
  // ---------------------------------------------------------------------------

  /** The number of qwords an instruction leaves on the stack; a call returns with the stack as it found it. */
  function Effect(i: Instr): int {
    match i
    case Push(_) => 1
    case Pop(_) => -1
    case _ => 0
  }

  function Net(code: seq<Instr>): int
    decreases |code|
  {
    if |code| == 0 then 0 else Net(code[..|code| - 1]) + Effect(code[|code| - 1])
  }

  lemma {:induction false} NetAppend(a: seq<Instr>, b: seq<Instr>)
    ensures Net(a + b) == Net(a) + Net(b)
    decreases |b|
  {
    if |b| > 0 {
      var b' := b[..|b| - 1];
      assert (a + b)[..|a + b| - 1] == a + b';
      assert (a + b)[|a + b| - 1] == b[|b| - 1];
      NetAppend(a, b');
    } else {
      assert a + b == a;
    }
  }

  lemma Net1(a: Instr)
    ensures Net([a]) == Effect(a)
  {
    assert [a][..0] == [];
  }

  lemma Net2(a: Instr, b: Instr)
    ensures Net([a, b]) == Effect(a) + Effect(b)
  {
    assert [a, b][..1] == [a];
    Net1(a);
  }

  lemma Net3(a: Instr, b: Instr, c: Instr)
    ensures Net([a, b, c]) == Effect(a) + Effect(b) + Effect(c)
  {
    assert [a, b, c][..2] == [a, b];
    Net2(a, b);
  }

  lemma Net4(a: Instr, b: Instr, c: Instr, d: Instr)
    ensures Net([a, b, c, d]) == Effect(a) + Effect(b) + Effect(c) + Effect(d)
  {
    assert [a, b, c, d][..3] == [a, b, c];
    Net3(a, b, c);
  }

  lemma Net5(a: Instr, b: Instr, c: Instr, d: Instr, e: Instr)
    ensures Net([a, b, c, d, e]) == Effect(a) + Effect(b) + Effect(c) + Effect(d) + Effect(e)
  {
    assert [a, b, c, d, e][..4] == [a, b, c, d];
    Net4(a, b, c, d);
  }

  /**
   * An instruction a function body may hold: it leaves rsp to pushes and
   * pops and rbp alone, and neither returns nor ends the process.
   */
  predicate InBody(i: Instr) {
    match i
    case Pop(Reg(r)) => r != RBP && r != RSP
    case Mov(Reg(r), _) => r != RBP && r != RSP
    case Arith(_, r, _) => r != RBP && r != RSP
    case Lea(r, _) => r != RBP && r != RSP
    case Neg(r) => r != RBP && r != RSP
    case Idiv(_) => true
    case Ret => false
    case Label(_) => false
    case Syscall => false
    case Header(_, _) => false
    case _ => true
  }

  predicate AllInBody(code: seq<Instr>) {
    forall k :: 0 <= k < |code| ==> InBody(code[k])
  }

  lemma InBodyAppend(a: seq<Instr>, b: seq<Instr>)
    ensures AllInBody(a) && AllInBody(b) ==> AllInBody(a + b)
  {
    if AllInBody(a) && AllInBody(b) {
      forall k | 0 <= k < |a + b| ensures InBody((a + b)[k]) {
        if k < |a| {
          assert (a + b)[k] == a[k];
        } else {
          assert (a + b)[k] == b[k - |a|];
        }
      }
    }
  }

  // ---------------------------------------------------------------------------
  // Patterns
  // ---------------------------------------------------------------------------

  /** The instruction _CodeWriter_Node_To_Ope names for `+`, `-` and `*`. */
  function ArithOf(op: char): ArithOp {
    if op == '+' then Add else if op == '-' then Sub else Imul
  }

  /**
   * CodeWriter_Ope: the right operand is popped into rcx and the left into rax.
   * Division and remainder clear rdx, run `idiv rcx` and push the quotient
   * (rax) or the remainder (rdx); `+`, `-`, `*` combine into rax and push it.
   * Any other operator fails the assertion of _CodeWriter_Node_To_Ope.
   */
  function OpeCode(op: char): (r: Option<seq<Instr>>)
    ensures r.Some? <==> op in "+-*/%"
    ensures r.Some? ==> Net(r.value) == -1 && AllInBody(r.value)
  {
    if op == '/' || op == '%' then
      var result := Reg(if op == '%' then RDX else RAX);
      Net5(Mov(Reg(RDX), Imm(0)), Pop(Reg(RCX)), Pop(Reg(RAX)), Idiv(RCX), Push(result));
      Some([Mov(Reg(RDX), Imm(0)), Pop(Reg(RCX)), Pop(Reg(RAX)), Idiv(RCX), Push(result)])
    else if op in "+-*" then
      Net4(Pop(Reg(RCX)), Pop(Reg(RAX)), Arith(ArithOf(op), RAX, Reg(RCX)), Push(Reg(RAX)));
      Some([Pop(Reg(RCX)), Pop(Reg(RAX)), Arith(ArithOf(op), RAX, Reg(RCX)), Push(Reg(RAX))])
    else None
  }

  /** The division pattern with the sign extension `idiv` needs in place of `mov rdx, 0`. */
  function DivCodeFixed(op: char): (code: seq<Instr>)
    requires op == '/' || op == '%'
    ensures Net(code) == -1
  {
    var result := Reg(if op == '%' then RDX else RAX);
    Net5(Pop(Reg(RCX)), Pop(Reg(RAX)), Cqo, Idiv(RCX), Push(result));
    [Pop(Reg(RCX)), Pop(Reg(RAX)), Cqo, Idiv(RCX), Push(result)]
  }

  /** CodeWriter_Ope_Unaire: negation for `-`, nothing for any other operator. */
  function UnaryCode(op: char): (code: seq<Instr>)
    ensures Net(code) == 0
    ensures op != '-' ==> code == []
  {
    Net3(Pop(Reg(RAX)), Neg(RAX), Push(Reg(RAX)));
    if op == '-' then [Pop(Reg(RAX)), Neg(RAX), Push(Reg(RAX))] else []
  }

  /** CodeWriter_ConstantNumber and CodeWriter_ConstantCharacter: one immediate pushed. */
  function ConstantCode(v: int): (code: seq<Instr>)
    ensures Net(code) == 1 && |code| == 1 && code[0].Push? && AllInBody(code)
  {
    Net1(Push(Imm(v)));
    [Push(Imm(v))]
  }

  /** _CodeWriter_LoadValue: one qword pushed from the parameter's or local's frame slot, or from the static area. */
  function LoadValueCode(sym: Symbol): (code: seq<Instr>)
    ensures Net(code) == 1 && |code| == 1 && AllInBody(code)
    ensures code[0] == if sym.isStatic && !sym.isParam then Push(Static(sym.addr)) else Push(Frame(sym.addr))
  {
    Net1(Push(Frame(sym.addr)));
    Net1(Push(Static(sym.addr)));
    if sym.isParam then [Push(Frame(sym.addr))]
    else if sym.isStatic then [Push(Static(sym.addr))]
    else [Push(Frame(sym.addr))]
  }

  /**
   * _CodeWriter_ComputeArrayAddress: the array's base into rdx, from the
   * static area, from the pointer a parameter holds, or from the frame.
   */
  function ArrayBaseCode(sym: Symbol): (code: seq<Instr>)
    ensures Net(code) == 0 && |code| >= 1 && AllInBody(code)
    ensures code[|code| - 1] == if sym.isStatic then Mov(Reg(RDX), StaticAddr(sym.addr))
                                else if sym.isParam then Pop(Reg(RDX)) else Lea(RDX, Frame(sym.addr))
  {
    Net1(Mov(Reg(RDX), StaticAddr(sym.addr)));
    Net2(Push(Frame(sym.addr)), Pop(Reg(RDX)));
    Net1(Lea(RDX, Frame(sym.addr)));
    if sym.isStatic then [Mov(Reg(RDX), StaticAddr(sym.addr))]
    else if sym.isParam then [Push(Frame(sym.addr)), Pop(Reg(RDX))]
    else [Lea(RDX, Frame(sym.addr))]
  }

  /** _CodeWriter_LoadArrayAddress: the base pushed, the form an array is passed in. */
  function LoadArrayAddressCode(sym: Symbol): (code: seq<Instr>)
    ensures Net(code) == 1 && |code| >= 1 && code[|code| - 1] == Push(Reg(RDX)) && AllInBody(code)
  {
    InBodyAppend(ArrayBaseCode(sym), [Push(Reg(RDX))]);
    Net1(Push(Reg(RDX)));
    NetAppend(ArrayBaseCode(sym), [Push(Reg(RDX))]);
    ArrayBaseCode(sym) + [Push(Reg(RDX))]
  }

  /** The part of _CodeWriter_ComputeArrayElementAddress after the index: base + index * element size, pushed. */
  function ElementAddressTail(sym: Symbol): (code: seq<Instr>)
    ensures Net(code) == 0 && |code| >= 3 && code[0] == Pop(Reg(RAX)) && AllInBody(code)
    ensures code[|code| - 2..] == [Lea(RAX, Indexed(RDX, RAX, sym.typeSize)), Push(Reg(RAX))]
  {
    var code := [Pop(Reg(RAX))] + ArrayBaseCode(sym) + [Lea(RAX, Indexed(RDX, RAX, sym.typeSize)), Push(Reg(RAX))];
    Net1(Pop(Reg(RAX)));
    Net2(Lea(RAX, Indexed(RDX, RAX, sym.typeSize)), Push(Reg(RAX)));
    NetAppend([Pop(Reg(RAX))], ArrayBaseCode(sym));
    NetAppend([Pop(Reg(RAX))] + ArrayBaseCode(sym), [Lea(RAX, Indexed(RDX, RAX, sym.typeSize)), Push(Reg(RAX))]);
    InBodyAppend([Pop(Reg(RAX))], ArrayBaseCode(sym));
    InBodyAppend([Pop(Reg(RAX))] + ArrayBaseCode(sym), [Lea(RAX, Indexed(RDX, RAX, sym.typeSize)), Push(Reg(RAX))]);
    code
  }

  /** The part of _CodeWriter_LoadArray after the element address: the element replaces its address. */
  function LoadElementTail(): (code: seq<Instr>)
    ensures Net(code) == 0 && AllInBody(code)
  {
    Net2(Pop(Reg(RAX)), Push(At(RAX)));
    [Pop(Reg(RAX)), Push(At(RAX))]
  }

  /** _CodeWriter_LoadArray after the index: the element at base + index * size replaces the index. */
  function LoadElementCode(sym: Symbol): (code: seq<Instr>)
    ensures Net(code) == 0 && AllInBody(code)
  {
    NetAppend(ElementAddressTail(sym), LoadElementTail());
    InBodyAppend(ElementAddressTail(sym), LoadElementTail());
    ElementAddressTail(sym) + LoadElementTail()
  }

  /** CodeWriter_WriteArray after the index: the element address computed, then the value below it stored there. */
  function StoreElementCode(sym: Symbol): (code: seq<Instr>)
    ensures Net(code) == -2 && AllInBody(code)
  {
    NetAppend(ElementAddressTail(sym), StoreElementTail());
    InBodyAppend(ElementAddressTail(sym), StoreElementTail());
    ElementAddressTail(sym) + StoreElementTail()
  }

  /** CodeWriter_WriteValue: the top of the stack popped into the static slot or the frame slot. */
  function StoreValueCode(sym: Symbol): (code: seq<Instr>)
    ensures Net(code) == -1 && AllInBody(code)
    ensures code == [Pop(Reg(RAX)), Mov(if sym.isStatic then Static(sym.addr) else Frame(sym.addr), Reg(RAX))]
  {
    Net2(Pop(Reg(RAX)), Mov(Static(sym.addr), Reg(RAX)));
    Net2(Pop(Reg(RAX)), Mov(Frame(sym.addr), Reg(RAX)));
    if sym.isStatic then [Pop(Reg(RAX)), Mov(Static(sym.addr), Reg(RAX))]
    else [Pop(Reg(RAX)), Mov(Frame(sym.addr), Reg(RAX))]
  }

  /** The part of CodeWriter_WriteArray after the element address: the address, then the value, popped. */
  function StoreElementTail(): (code: seq<Instr>)
    ensures Net(code) == -2 && AllInBody(code)
  {
    Net2(Pop(Reg(RAX)), Pop(At(RAX)));
    [Pop(Reg(RAX)), Pop(At(RAX))]
  }

  /** The fewer of a count and the six register-passed parameters (MIN(count, 6)). */
  function RegisterParams(count: nat): (k: nat)
    ensures k <= 6 && k <= count && (k == count || k == 6)
  {
    if count < 6 then count else 6
  }

  /** The pops of CodeWriter_CallFunction: the first `k` parameter registers, in order. */
  function PopParams(k: nat): (code: seq<Instr>)
    requires k <= 6
    ensures |code| == k && Net(code) == -(k as int) && AllInBody(code)
    decreases k
  {
    if k == 0 then []
    else
      Net1(Pop(Reg(ParamToReg(k - 1))));
      InBodyAppend(PopParams(k - 1), [Pop(Reg(ParamToReg(k - 1)))]);
      NetAppend(PopParams(k - 1), [Pop(Reg(ParamToReg(k - 1)))]);
      PopParams(k - 1) + [Pop(Reg(ParamToReg(k - 1)))]
  }

  lemma {:induction false} PopParamsAt(k: nat, i: nat)
    requires k <= 6 && i < k
    ensures PopParams(k)[i] == Pop(Reg(ParamToReg(i)))
    decreases k
  {
    if i < k - 1 {
      PopParamsAt(k - 1, i);
    }
  }

  /**
   * The end of CodeWriter_CallFunction once the arguments are on the stack:
   * with an argument list, as many pops as the callee has register
   * parameters; then the call, and rax pushed, even for a void callee.
   */
  function CallTail(callee: Name, withArgs: bool, count: nat): (code: seq<Instr>)
    ensures Net(code) == 1 - (if withArgs then RegisterParams(count) else 0)
    ensures |code| >= 2 && code[|code| - 2..] == [Call(callee), Push(Reg(RAX))]
    ensures AllInBody(code)
  {
    var pops := if withArgs then PopParams(RegisterParams(count)) else [];
    CallAfter(pops, callee);
    pops + [Call(callee), Push(Reg(RAX))]
  }

  lemma CallAfter(pops: seq<Instr>, callee: Name)
    requires AllInBody(pops)
    ensures var c := pops + [Call(callee), Push(Reg(RAX))];
      Net(c) == Net(pops) + 1 && |c| >= 2 && c[|c| - 2..] == [Call(callee), Push(Reg(RAX))] && AllInBody(c)
  {
    Net2(Call(callee), Push(Reg(RAX)));
    NetAppend(pops, [Call(callee), Push(Reg(RAX))]);
    InBodyAppend(pops, [Call(callee), Push(Reg(RAX))]);
  }

  /** What precedes the call instruction in code that ends with a call tail. */
  lemma CallTailSplit(a: seq<Instr>, callee: Name, count: nat)
    ensures var c := a + CallTail(callee, true, count);
      c[..|c| - 2] == a + PopParams(RegisterParams(count)) && c[|c| - 2..] == [Call(callee), Push(Reg(RAX))]
  {
    var pops, last := PopParams(RegisterParams(count)), [Call(callee), Push(Reg(RAX))];
    assert CallTail(callee, true, count) == pops + last;
    SplitBeforeLast(a, pops, last);
  }

  /** Code ending in a two-instruction piece, cut before that piece. */
  lemma SplitBeforeLast(a: seq<Instr>, b: seq<Instr>, t: seq<Instr>)
    requires |t| == 2
    ensures var c := a + (b + t); c[..|c| - 2] == a + b && c[|c| - 2..] == t
  {
    var c := a + (b + t);
    assert c == (a + b) + t;
  }

  /** The opening of CodeWriter_stackFrame_start: rbp saved, the frame set up, `locals.next_addr` bytes reserved. */
  function FrameOpen(f: FunctionTable): (code: seq<Instr>)
    ensures Net(code) == 1
  {
    Net3(Push(Reg(RBP)), Mov(Reg(RBP), Reg(RSP)), Arith(Sub, RSP, Imm(f.locals.nextAddr)));
    [Push(Reg(RBP)), Mov(Reg(RBP), Reg(RSP)), Arith(Sub, RSP, Imm(f.locals.nextAddr))]
  }

  /** What an emitter wrote, and whether it got to its end rather than stopping at a NULL dereference. */
  datatype Partial = Partial(code: seq<Instr>, complete: bool)

  /**
   * The parameter moves of CodeWriter_stackFrame_start for the indices below
   * `k`, each storing the index's register into the slot of the parameter
   * declared at that index. A missing index stops the emitter (its symbol is
   * NULL): the moves before it are written, no later one is.
   */
  function SaveParams(f: FunctionTable, k: nat): (r: Partial)
    requires k <= 6
    ensures |r.code| <= k && (r.complete <==> |r.code| == k)
    decreases k
  {
    if k == 0 then Partial([], true)
    else
      var prev := SaveParams(f, k - 1);
      if !prev.complete then prev
      else
        match ParamWithIndex(f.parameters.symbols, k - 1)
        case None => Partial(prev.code, false)
        case Some(p) => Partial(prev.code + [Mov(Frame(p.addr), Reg(ParamToReg(k - 1)))], true)
  }

  /** One more index: its move appended, or the prologue stopped at it. */
  lemma SaveParamsNext(f: FunctionTable, i: nat, p: Option<Symbol>)
    requires i < 6 && SaveParams(f, i).complete && p == ParamWithIndex(f.parameters.symbols, i)
    ensures p.None? ==> SaveParams(f, i + 1) == Partial(SaveParams(f, i).code, false)
    ensures p.Some? ==> SaveParams(f, i + 1) == Partial(SaveParams(f, i).code + [Mov(Frame(p.value.addr), Reg(ParamToReg(i)))], true)
  {
  }

  /** The parameter moves leave the stack and the frame registers as they were. */
  lemma {:induction false} SaveParamsInBody(f: FunctionTable, k: nat)
    requires k <= 6
    ensures Net(SaveParams(f, k).code) == 0 && AllInBody(SaveParams(f, k).code)
    decreases k
  {
    if k > 0 {
      var prev := SaveParams(f, k - 1);
      SaveParamsInBody(f, k - 1);
      if prev.complete {
        var p := ParamWithIndex(f.parameters.symbols, k - 1);
        SaveParamsNext(f, k - 1, p);
        if p.Some? {
          AppendMove(prev.code, Mov(Frame(p.value.addr), Reg(ParamToReg(k - 1))));
        }
      }
    }
  }

  /** A move that leaves the stack alone and stays inside the frame, appended. */
  lemma AppendMove(code: seq<Instr>, mov: Instr)
    requires Effect(mov) == 0 && InBody(mov)
    ensures Net(code + [mov]) == Net(code)
    ensures AllInBody(code) ==> AllInBody(code + [mov])
  {
    Net1(mov);
    NetAppend(code, [mov]);
    InBodyAppend(code, [mov]);
  }

  /** CodeWriter_stackFrame_start. */
  function FrameStartCode(f: FunctionTable): (r: Partial)
    ensures Net(r.code) == 1 && |r.code| >= 3 && r.code[..3] == FrameOpen(f)
  {
    var saves := SaveParams(f, RegisterParams(ParamCount(f)));
    SaveParamsInBody(f, RegisterParams(ParamCount(f)));
    NetAppend(FrameOpen(f), saves.code);
    Partial(FrameOpen(f) + saves.code, saves.complete)
  }

  lemma FrameStartParts(f: FunctionTable)
    ensures FrameStartCode(f).code == FrameOpen(f) + SaveParams(f, RegisterParams(ParamCount(f))).code
    ensures FrameStartCode(f).complete == SaveParams(f, RegisterParams(ParamCount(f))).complete
  {
  }

  /** Concatenation regrouped, stated once so that the methods need not rederive it. */
  lemma Assoc(a: seq<Instr>, b: seq<Instr>, c: seq<Instr>)
    ensures (a + b) + c == a + (b + c)
  {
  }

  /** CodeWriter_stackFrame_end: the stack pointer back to the frame base, rbp restored. */
  function FrameEndCode(): (code: seq<Instr>)
    ensures Net(code) == -1
    ensures forall k :: 0 <= k < |code| ==> !code[k].Push? && code[k] != Ret
  {
    var c := [Mov(Reg(RSP), Reg(RBP)), Pop(Reg(RBP))];
    assert c[..1] == [c[0]] && c[..1][..0] == [];
    c
  }

  /** The extern declarations of CodeWriter_Init_File. */
  function Externs(): seq<Name> {
    ["show_registers", "show_stack", "putchar", "getchar", "putint", "getint"]
  }

  /** CodeWriter_entrypoint: `_start` calls main and passes its result to the exit system call (number 60). */
  function EntryCode(): (code: seq<Instr>)
    ensures |code| == 5 && code[0] == Label("_start") && code[|code| - 1] == Syscall
    ensures forall k :: 0 <= k < |code| - 1 ==> code[k] != Ret && code[k] != Syscall
    ensures code[1] == Call("main")
  {
    [Label("_start"), Call("main"), Mov(Reg(RDI), Reg(RAX)), Mov(Reg(RAX), Imm(60)), Syscall]
  }

  /** After main returns, its result in rax becomes the exit status in rdi and rax holds the number of `exit`. */
  lemma EntryPassesResult(m: Machine)
    ensures var r := Run(EntryCode()[2..4], m);
      r.Some? && Val(r.value, RDI) == Val(m, RAX) && Val(r.value, RAX) == 60 && r.value.stack == m.stack
  {
    var c := EntryCode();
    assert c[2..4] == [c[2], c[3]];
    Run2(c[2], c[3], m);
  }

  /** CodeWriter_Init_File: the header reserving the globals' bytes, then the entry point; None when the table is not the global one (the assertion). */
  function InitFileCode(globals: Scope): (r: Option<seq<Instr>>)
    ensures r.Some? <==> globals.kind == Global
    ensures r.Some? ==> |r.value| >= 1 && r.value[0] == Header(Externs(), globals.nextAddr) && r.value[1..] == EntryCode()
  {
    if globals.kind == Global then Some([Header(Externs(), globals.nextAddr)] + EntryCode()) else None
  }

  // ---------------------------------------------------------------------------
  // Where the parameters go
  // ---------------------------------------------------------------------------

  /** Once the prologue has stopped at a missing index, asking for more indices changes nothing. */
  lemma {:induction false} IncompleteStays(f: FunctionTable, i: nat, k: nat)
    requires i <= k <= 6 && !SaveParams(f, i).complete
    ensures SaveParams(f, k) == SaveParams(f, i)
    decreases k - i
  {
    if i < k {
      IncompleteStays(f, i, k - 1);
    }
  }

  /** Each move of the prologue stores the register of its index into the slot of the parameter declared at that index. */
  lemma {:induction false} SaveParamsAt(f: FunctionTable, k: nat, i: nat)
    requires k <= 6 && i < |SaveParams(f, k).code|
    ensures ParamWithIndex(f.parameters.symbols, i).Some?
    ensures SaveParams(f, k).code[i] == Mov(Frame(ParamWithIndex(f.parameters.symbols, i).value.addr), Reg(ParamToReg(i)))
    decreases k
  {
    var prev := SaveParams(f, k - 1);
    if !prev.complete {
      IncompleteStays(f, k - 1, k);
      SaveParamsAt(f, k - 1, i);
    } else {
      var p := ParamWithIndex(f.parameters.symbols, k - 1);
      SaveParamsNext(f, k - 1, p);
      if p.None? {
        SaveParamsAt(f, k - 1, i);
      } else {
        var mov := Mov(Frame(p.value.addr), Reg(ParamToReg(k - 1)));
        if i < |prev.code| {
          SaveParamsAt(f, k - 1, i);
          assert (prev.code + [mov])[i] == prev.code[i];
        } else {
          assert i == k - 1 && (prev.code + [mov])[i] == mov;
        }
      }
    }
  }

  /** On a valid parameter table every index below the count has its parameter, so the prologue runs to its end. */
  lemma {:induction false} SaveParamsComplete(f: FunctionTable, k: nat)
    requires Valid(f.parameters) && k <= 6 && k <= ParamCount(f)
    ensures SaveParams(f, k).complete
    decreases k
  {
    if k > 0 {
      SaveParamsComplete(f, k - 1);
      ParamIndexRange(f, k - 1);
      SaveParamsNext(f, k - 1, ParamWithIndex(f.parameters.symbols, k - 1));
    }
  }

  /** The prologue of a valid table stores all min(count, 6) register parameters. */
  lemma FrameStartComplete(f: FunctionTable)
    requires Valid(f.parameters)
    ensures FrameStartCode(f).complete
    ensures |FrameStartCode(f).code| == 3 + RegisterParams(ParamCount(f))
  {
    SaveParamsComplete(f, RegisterParams(ParamCount(f)));
  }

  // ---------------------------------------------------------------------------
  // The frame discipline
  // ---------------------------------------------------------------------------

  /**
   * The stack depth in bytes (growing with each push and with `sub rsp`) and
   * the frame base, as an instruction moves them. The base follows the moves
   * between rsp and rbp; the caller's base that `pop rbp` restores is not
   * followed.
   */
  function Track(i: Instr, sp: int, bp: int): (int, int) {
    match i
    case Push(_) => (sp + 8, bp)
    case Pop(_) => (sp - 8, bp)
    case Mov(Reg(RBP), Reg(RSP)) => (sp, sp)
    case Mov(Reg(RSP), Reg(RBP)) => (bp, bp)
    case Arith(Sub, RSP, Imm(n)) => (sp + n, bp)
    case _ => (sp, bp)
  }

  function TrackAll(code: seq<Instr>, sp: int, bp: int): (int, int)
    decreases |code|
  {
    if |code| == 0 then (sp, bp)
    else
      var s := TrackAll(code[..|code| - 1], sp, bp);
      Track(code[|code| - 1], s.0, s.1)
  }


  /** Code that leaves the frame registers alone moves the stack pointer by its net effect and keeps the frame base. */
  lemma {:induction false} TrackSafe(code: seq<Instr>, sp: int, bp: int)
    requires AllInBody(code)
    ensures TrackAll(code, sp, bp) == (sp + 8 * Net(code), bp)
    decreases |code|
  {
    if |code| > 0 {
      var pre := code[..|code| - 1];
      assert AllInBody(pre) by {
        forall k | 0 <= k < |pre| ensures InBody(pre[k]) {
          assert pre[k] == code[k];
        }
      }
      TrackSafe(pre, sp, bp);
      assert InBody(code[|code| - 1]);
    }
  }

  lemma {:induction false} TrackAppend(a: seq<Instr>, b: seq<Instr>, sp: int, bp: int)
    ensures TrackAll(a + b, sp, bp) == TrackAll(b, TrackAll(a, sp, bp).0, TrackAll(a, sp, bp).1)
    decreases |b|
  {
    if |b| > 0 {
      var b' := b[..|b| - 1];
      assert (a + b)[..|a + b| - 1] == a + b';
      assert (a + b)[|a + b| - 1] == b[|b| - 1];
      TrackAppend(a, b', sp, bp);
    } else {
      assert a + b == a;
    }
  }

  /** The label and the opening of the prologue: rbp saved one qword deeper, the frame base set there, the frame reserved below it. */
  lemma TrackPrologue(n: Name, f: FunctionTable, sp: int, bp: int)
    ensures TrackAll([Label(n)] + FrameOpen(f), sp, bp) == (sp + 8 + f.locals.nextAddr, sp + 8)
  {
    var c := [Label(n)] + FrameOpen(f);
    assert c[..1][..0] == [];
    assert TrackAll(c[..1], sp, bp) == (sp, bp);
    assert c[..2][..1] == c[..1];
    assert TrackAll(c[..2], sp, bp) == (sp + 8, bp);
    assert c[..3][..2] == c[..2];
    assert TrackAll(c[..3], sp, bp) == (sp + 8, sp + 8);
    assert c[..4] == c;
  }

  /** The epilogue: rsp back to the frame base, then the saved rbp popped. */
  lemma TrackEpilogue(sp: int, bp: int)
    ensures TrackAll(FrameEndCode(), sp, bp) == (bp - 8, bp)
  {
    assert FrameEndCode()[..1][..0] == [];
  }

  // ---------------------------------------------------------------------------
  // A register machine for the arithmetic patterns
  // ---------------------------------------------------------------------------

  const Two64: int := 0x1_0000_0000_0000_0000
  const Two63: int := 0x8000_0000_0000_0000

  predicate Signed64(v: int) {
    -Two63 <= v < Two63
  }

  /** Reduction modulo 2^64 into the signed range: what a 64-bit register keeps. */
  function Wrap64(v: int): (w: int)
    ensures Signed64(w) && (w - v) % Two64 == 0
    ensures Signed64(v) ==> w == v
  {
    (v + Two63) % Two64 - Two63
  }

  /** Numbers that differ by a multiple of 2^64 wrap to the same register value. */
  lemma WrapCongruent(a: int, b: int, k: int)
    requires a == b + Two64 * k
    ensures Wrap64(a) == Wrap64(b)
  {
    var d := Wrap64(a) - Wrap64(b);
    assert d % Two64 == 0;
    assert -Two64 < d < Two64;
  }

  /** A wrapped value differs from the number by a multiple of 2^64. */
  lemma WrapOffset(a: int) returns (k: int)
    ensures Wrap64(a) == a + Two64 * k
  {
    k := (Wrap64(a) - a) / Two64;
  }

  /** The product of two numbers each shifted by a multiple of 2^64 is shifted by one too. */
  lemma MulOffset(a: int, b: int, wa: int, wb: int, ka: int, kb: int) returns (x: int)
    requires wa == a + Two64 * ka && wb == b + Two64 * kb
    ensures wa * wb == a * b + Two64 * x
  {
    x := ka * wb + a * kb;
    calc {
      wa * wb;
      a * wb + Two64 * ka * wb;
      a * (b + Two64 * kb) + Two64 * ka * wb;
      a * b + Two64 * (a * kb) + Two64 * ka * wb;
    }
  }

  /** Wrapping the operands first does not change the wrapped result of `+`, `-` or `*`. */
  lemma WrapArith(op: ArithOp, a: int, b: int)
    ensures Wrap64(ArithValue(op, Wrap64(a), Wrap64(b))) == Wrap64(ArithValue(op, a, b))
  {
    var wa, wb := Wrap64(a), Wrap64(b);
    var ka := WrapOffset(a);
    var kb := WrapOffset(b);
    match op
    case Add =>
      WrapCongruent(wa + wb, a + b, ka + kb);
    case Sub =>
      WrapCongruent(wa - wb, a - b, ka - kb);
    case Imul =>
      var x := MulOffset(a, b, wa, wb, ka, kb);
      WrapCongruent(wa * wb, a * b, x);
  }

  /** The bits of a register read as an unsigned number. */
  function Unsigned64(v: int): int {
    if v < 0 then v + Two64 else v
  }

  function Abs(v: int): nat {
    if v < 0 then -v else v
  }

  /** Division rounding toward zero, as C and idiv round. */
  function TruncDiv(a: int, b: int): int
    requires b != 0
  {
    var q := Abs(a) / Abs(b);
    if (a < 0) != (b < 0) then -q else q
  }

  /** The remainder that goes with TruncDiv: it takes the dividend's sign. */
  function TruncMod(a: int, b: int): int
    requires b != 0
  {
    a - b * TruncDiv(a, b)
  }

  /** Registers and stack: the registers not yet written read as 0. */
  datatype Machine = Machine(regs: map<Register, int>, stack: seq<int>)

  function Val(m: Machine, r: Register): int {
    if r in m.regs then m.regs[r] else 0
  }

  function SetReg(m: Machine, r: Register, v: int): Machine {
    m.(regs := m.regs[r := v])
  }

  function ArithValue(op: ArithOp, a: int, b: int): int {
    match op
    case Add => a + b
    case Sub => a - b
    case Imul => a * b
  }

  /**
   * `idiv` on the 128-bit dividend rdx:rax: quotient into rax and remainder into
   * rdx; a zero divisor or a quotient outside 64 bits raises the divide error.
   */
  function IdivStep(m: Machine, d: Register): Option<Machine> {
    var divisor := Val(m, d);
    if divisor == 0 then None
    else
      var dividend := Val(m, RDX) * Two64 + Unsigned64(Val(m, RAX));
      var q := TruncDiv(dividend, divisor);
      if !Signed64(q) then None
      else Some(SetReg(SetReg(m, RAX, q), RDX, TruncMod(dividend, divisor)))
  }

  /** One instruction of the register and stack fragment the arithmetic patterns use; None for a fault or an instruction outside it. */
  function Step(m: Machine, i: Instr): Option<Machine> {
    match i
    case Push(Imm(v)) => Some(m.(stack := m.stack + [Wrap64(v)]))
    case Push(Reg(r)) => Some(m.(stack := m.stack + [Val(m, r)]))
    case Pop(Reg(r)) =>
      if |m.stack| == 0 then None
      else Some(SetReg(m.(stack := m.stack[..|m.stack| - 1]), r, m.stack[|m.stack| - 1]))
    case Mov(Reg(r), Imm(v)) => Some(SetReg(m, r, Wrap64(v)))
    case Mov(Reg(r), Reg(s)) => Some(SetReg(m, r, Val(m, s)))
    case Arith(op, r, Reg(s)) => Some(SetReg(m, r, Wrap64(ArithValue(op, Val(m, r), Val(m, s)))))
    case Neg(r) => Some(SetReg(m, r, Wrap64(-Val(m, r))))
    case Idiv(d) => IdivStep(m, d)
    case Cqo => Some(SetReg(m, RDX, if Val(m, RAX) < 0 then -1 else 0))
    case _ => None
  }

  function StepAfter(o: Option<Machine>, i: Instr): Option<Machine> {
    if o.None? then None else Step(o.value, i)
  }

  /** The instructions run in order from `m`; None once one faults. */
  function Run(code: seq<Instr>, m: Machine): Option<Machine>
    decreases |code|
  {
    if |code| == 0 then Some(m) else StepAfter(Run(code[..|code| - 1], m), code[|code| - 1])
  }

  lemma Run2(a: Instr, b: Instr, m: Machine)
    ensures Run([a, b], m) == StepAfter(Step(m, a), b)
  {
    assert [a, b][..1] == [a];
    assert [a][..0] == [];
    assert Run([a], m) == Step(m, a);
  }

  lemma Run3(a: Instr, b: Instr, c: Instr, m: Machine)
    ensures Run([a, b, c], m) == StepAfter(StepAfter(Step(m, a), b), c)
  {
    assert [a, b, c][..2] == [a, b];
    Run2(a, b, m);
  }

  lemma Run4(a: Instr, b: Instr, c: Instr, d: Instr, m: Machine)
    ensures Run([a, b, c, d], m) == StepAfter(StepAfter(StepAfter(Step(m, a), b), c), d)
  {
    assert [a, b, c, d][..3] == [a, b, c];
    Run3(a, b, c, m);
  }

  lemma Run5(a: Instr, b: Instr, c: Instr, d: Instr, e: Instr, m: Machine)
    ensures Run([a, b, c, d, e], m) == StepAfter(StepAfter(StepAfter(StepAfter(Step(m, a), b), c), d), e)
  {
    assert [a, b, c, d, e][..4] == [a, b, c, d];
    Run4(a, b, c, d, m);
  }

  /** Running two pieces of code one after the other. */
  lemma {:induction false} RunAppend(a: seq<Instr>, b: seq<Instr>, m: Machine)
    ensures Run(a + b, m) == if Run(a, m).None? then None else Run(b, Run(a, m).value)
    decreases |b|
  {
    if |b| == 0 {
      assert a + b == a;
    } else {
      var b' := b[..|b| - 1];
      assert (a + b)[..|a + b| - 1] == a + b';
      assert (a + b)[|a + b| - 1] == b[|b| - 1];
      RunAppend(a, b', m);
    }
  }

  lemma RunThen(a: seq<Instr>, b: seq<Instr>, m0: Machine, m1: Machine, m2: Machine)
    requires Run(a, m0) == Some(m1) && Run(b, m1) == Some(m2)
    ensures Run(a + b, m0) == Some(m2)
  {
    RunAppend(a, b, m0);
  }

  lemma StackAssoc(a: seq<int>, b: seq<int>, c: seq<int>)
    ensures (a + b) + c == a + (b + c)
  {
  }

  /** The values in the order a right-to-left evaluation pushes them: the last one deepest. */
  function Reversed(vs: seq<int>): (r: seq<int>)
    ensures |r| == |vs|
    decreases |vs|
  {
    if |vs| == 0 then [] else [vs[|vs| - 1]] + Reversed(vs[..|vs| - 1])
  }

  /** The `j`-th parameter register holds `vs[j]`, for each of the at most six values. */
  predicate HoldsParams(m: Machine, vs: seq<int>) {
    |vs| <= 6 && forall j :: 0 <= j < |vs| ==> Val(m, ParamToReg(j)) == vs[j]
  }

  /** A machine state with the stack `s` and the `j`-th parameter register holding `vs[j]`. */
  predicate LoadsArgs(m: Option<Machine>, s: seq<int>, vs: seq<int>) {
    m.Some? && m.value.stack == s && HoldsParams(m.value, vs)
  }

  /**
   * The pops of a call, on a stack holding `k` values pushed last to first:
   * the stack loses them, and the `i`-th parameter register receives the
   * `i`-th value.
   */
  lemma {:induction false} PopParamsLoad(k: nat, vs: seq<int>, s: seq<int>, regs: map<Register, int>)
    requires k <= 6 && |vs| == k
    ensures LoadsArgs(Run(PopParams(k), Machine(regs, s + Reversed(vs))), s, vs)
    decreases k
  {
    if k == 0 {
      assert s + Reversed(vs) == s;
    } else {
      var last, pre := vs[k - 1], vs[..k - 1];
      var m0 := Machine(regs, s + Reversed(vs));
      ReversedLast(s, vs);
      PopParamsLoad(k - 1, pre, s + [last], regs);
      var m1 := Run(PopParams(k - 1), m0).value;
      var r := ParamToReg(k - 1);
      var m2 := SetReg(m1.(stack := s), r, last);
      PopOne(m1, r, s, last);
      assert PopParams(k) == PopParams(k - 1) + [Pop(Reg(r))];
      RunThen(PopParams(k - 1), [Pop(Reg(r))], m0, m1, m2);
      LoadsOneMore(m1, m2, vs);
    }
  }

  /** Pushing last to first: the last value is the deepest. */
  lemma ReversedLast(s: seq<int>, vs: seq<int>)
    requires |vs| > 0
    ensures s + Reversed(vs) == (s + [vs[|vs| - 1]]) + Reversed(vs[..|vs| - 1])
  {
  }

  /** One pop into register `r`. */
  lemma PopOne(m: Machine, r: Register, s: seq<int>, v: int)
    requires m.stack == s + [v]
    ensures Run([Pop(Reg(r))], m) == Some(SetReg(m.(stack := s), r, v))
  {
    assert m.stack[..|s|] == s;
    assert [Pop(Reg(r))][..0] == [];
  }

  /** Setting the next parameter register extends the values the registers hold by one. */
  lemma LoadsOneMore(m1: Machine, m2: Machine, vs: seq<int>)
    requires 0 < |vs| <= 6 && HoldsParams(m1, vs[..|vs| - 1])
    requires m2.regs == m1.regs[ParamToReg(|vs| - 1) := vs[|vs| - 1]]
    ensures HoldsParams(m2, vs)
  {
    var k := |vs|;
    forall j | 0 <= j < k ensures Val(m2, ParamToReg(j)) == vs[j] {
      if j < k - 1 {
        ParamToRegInjective(j, k - 1);
        assert vs[..k - 1][j] == vs[j];
      }
    }
  }

  /**
   * Argument code that leaves `k` values pushed last to first, followed by
   * the tail of a call: up to the `call`, the stack is back where it was and
   * the parameter registers hold the values in order.
   */
  lemma CallLoads(c: seq<Instr>, args: seq<Instr>, callee: Name, count: nat, m0: Machine, regs: map<Register, int>, s: seq<int>, vs: seq<int>)
    requires c == args + CallTail(callee, true, count)
    requires |vs| == RegisterParams(count)
    requires Run(args, m0) == Some(Machine(regs, s + Reversed(vs)))
    ensures |c| >= 2 && c[|c| - 2..] == [Call(callee), Push(Reg(RAX))]
    ensures LoadsArgs(Run(c[..|c| - 2], m0), s, vs)
  {
    var k := RegisterParams(count);
    var pops := PopParams(k);
    CallTailSplit(args, callee, count);
    var m1 := Machine(regs, s + Reversed(vs));
    PopParamsLoad(k, vs, s, regs);
    var m2 := Run(pops, m1);
    RunThen(args, pops, m0, m1, m2.value);
    assert c[..|c| - 2] == args + pops;
  }

  /** The two pops that open a binary pattern, from a stack ending in the left and the right operand. */
  lemma PopOperands(s: seq<int>, a: int, b: int, regs: map<Register, int>)
    ensures StepAfter(Step(Machine(regs, s + [a, b]), Pop(Reg(RCX))), Pop(Reg(RAX))) ==
              Some(Machine(regs[RCX := b][RAX := a], s))
  {
    assert (s + [a, b])[..|s| + 1] == s + [a];
    assert (s + [a])[..|s|] == s;
  }

  /** `+`, `-` and `*` replace the two operands on top of the stack by their 64-bit wrapped result, the left operand being the deeper one. */
  lemma OpeArithmetic(op: char, s: seq<int>, a: int, b: int, regs: map<Register, int>)
    requires op == '+' || op == '-' || op == '*'
    ensures Run(OpeCode(op).value, Machine(regs, s + [a, b])).Some?
    ensures Run(OpeCode(op).value, Machine(regs, s + [a, b])).value.stack ==
              s + [Wrap64(ArithValue(ArithOf(op), a, b))]
  {
    var c := OpeCode(op).value;
    Run4(c[0], c[1], c[2], c[3], Machine(regs, s + [a, b]));
    assert c == [c[0], c[1], c[2], c[3]];
    PopOperands(s, a, b, regs);
  }

  /** Left operand code, right operand code, then the operator: the two values pushed are combined. */
  lemma BinaryStep(cl: seq<Instr>, cr: seq<Instr>, op: char, m0: Machine, m1: Machine, m2: Machine, s: seq<int>, vl: int, vr: int)
    requires op == '+' || op == '-' || op == '*'
    requires Run(cl, m0) == Some(m1) && m1.stack == s + [vl]
    requires Run(cr, m1) == Some(m2) && m2.stack == (s + [vl]) + [vr]
    ensures Run((cl + cr) + OpeCode(op).value, m0).Some?
    ensures Run((cl + cr) + OpeCode(op).value, m0).value.stack ==
              s + [Wrap64(ArithValue(ArithOf(op), vl, vr))]
  {
    RunAppend(cl, cr, m0);
    RunAppend(cl + cr, OpeCode(op).value, m0);
    assert m2 == Machine(m2.regs, s + [vl, vr]);
    OpeArithmetic(op, s, vl, vr, m2.regs);
  }

  /** Unary minus replaces the top of the stack by its wrapped negation. */
  lemma UnaryNegation(s: seq<int>, a: int, regs: map<Register, int>)
    ensures Run(UnaryCode('-'), Machine(regs, s + [a])).Some?
    ensures Run(UnaryCode('-'), Machine(regs, s + [a])).value.stack == s + [Wrap64(-a)]
  {
    Run3(Pop(Reg(RAX)), Neg(RAX), Push(Reg(RAX)), Machine(regs, s + [a]));
    assert (s + [a])[..|s|] == s;
  }

  lemma MulAtLeast(q: nat, y: nat)
    requires y >= 1
    ensures q * y >= q
    decreases y
  {
    if y > 1 {
      MulAtLeast(q, y - 1);
      assert q * y == q * (y - 1) + q;
    }
  }

  /** A quotient is at most its dividend, and at most half of it when the divisor is 2 or more. */
  lemma QuotientBounds(x: nat, y: nat)
    requires y >= 1
    ensures x / y <= x
    ensures y >= 2 ==> 2 * (x / y) <= x
  {
    var q := x / y;
    assert q * y + x % y == x;
    MulAtLeast(q, y);
    if y >= 2 {
      MulAtLeast(q, y - 1);
      assert q * y == q * (y - 1) + q;
    }
  }

  /** A truncated quotient of signed 64-bit operands fits 64 bits, except MIN / -1. */
  lemma QuotientFits(a: int, b: int)
    requires Signed64(a) && Signed64(b) && b != 0 && !(a == -Two63 && b == -1)
    ensures Signed64(TruncDiv(a, b))
  {
    QuotientBounds(Abs(a), Abs(b));
  }

  /** The state a division pattern reaches before `idiv`: the operands in rax and rcx, rdx holding `hi`. */
  lemma DivPrelude(s: seq<int>, a: int, b: int, regs: map<Register, int>)
    ensures StepAfter(StepAfter(Step(Machine(regs, s + [a, b]), Mov(Reg(RDX), Imm(0))), Pop(Reg(RCX))), Pop(Reg(RAX))) ==
              Some(Machine(regs[RDX := 0][RCX := b][RAX := a], s))
    ensures StepAfter(StepAfter(Step(Machine(regs, s + [a, b]), Pop(Reg(RCX))), Pop(Reg(RAX))), Cqo) ==
              Some(Machine(regs[RCX := b][RAX := a][RDX := if a < 0 then -1 else 0], s))
  {
    PopOperands(s, a, b, regs);
    PopOperands(s, a, b, regs[RDX := 0]);
  }

  /** The division pattern as written runs to its `idiv` with rdx cleared and the operands in rax and rcx. */
  lemma DivWrittenRun(op: char, s: seq<int>, a: int, b: int, regs: map<Register, int>)
    requires op == '/' || op == '%'
    ensures Run(OpeCode(op).value, Machine(regs, s + [a, b])) ==
              StepAfter(IdivStep(Machine(regs[RDX := 0][RCX := b][RAX := a], s), RCX), Push(Reg(if op == '%' then RDX else RAX)))
  {
    var push := Push(Reg(if op == '%' then RDX else RAX));
    assert OpeCode(op).value == [Mov(Reg(RDX), Imm(0)), Pop(Reg(RCX)), Pop(Reg(RAX)), Idiv(RCX), push];
    var m := Machine(regs, s + [a, b]);
    Run5(Mov(Reg(RDX), Imm(0)), Pop(Reg(RCX)), Pop(Reg(RAX)), Idiv(RCX), push, m);
    DivPrelude(s, a, b, regs);
    var pre := Machine(regs[RDX := 0][RCX := b][RAX := a], s);
    assert Step(pre, Idiv(RCX)) == IdivStep(pre, RCX);
  }

  /** The corrected pattern runs to its `idiv` with rdx holding the sign extension of the dividend. */
  lemma DivFixedRun(op: char, s: seq<int>, a: int, b: int, regs: map<Register, int>)
    requires op == '/' || op == '%'
    ensures Run(DivCodeFixed(op), Machine(regs, s + [a, b])) ==
              StepAfter(IdivStep(Machine(regs[RCX := b][RAX := a][RDX := if a < 0 then -1 else 0], s), RCX), Push(Reg(if op == '%' then RDX else RAX)))
  {
    var push := Push(Reg(if op == '%' then RDX else RAX));
    assert DivCodeFixed(op) == [Pop(Reg(RCX)), Pop(Reg(RAX)), Cqo, Idiv(RCX), push];
    var m := Machine(regs, s + [a, b]);
    Run5(Pop(Reg(RCX)), Pop(Reg(RAX)), Cqo, Idiv(RCX), push, m);
    DivPrelude(s, a, b, regs);
    var pre := Machine(regs[RCX := b][RAX := a][RDX := if a < 0 then -1 else 0], s);
    assert Step(pre, Idiv(RCX)) == IdivStep(pre, RCX);
  }

  /** `idiv rcx` on a dividend the 128-bit rdx:rax reads as `a`, with a quotient that fits. */
  lemma IdivExact(m: Machine, a: int, b: int)
    requires Val(m, RCX) == b && b != 0
    requires Val(m, RDX) * Two64 + Unsigned64(Val(m, RAX)) == a
    requires Signed64(TruncDiv(a, b))
    ensures IdivStep(m, RCX) == Some(SetReg(SetReg(m, RAX, TruncDiv(a, b)), RDX, TruncMod(a, b)))
  {
  }

  /** The closing push of a division pattern. */
  lemma PushResult(op: char, m: Machine, q: int, r: int)
    requires op == '/' || op == '%'
    ensures Step(SetReg(SetReg(m, RAX, q), RDX, r), Push(Reg(if op == '%' then RDX else RAX))) ==
              Some(SetReg(SetReg(m, RAX, q), RDX, r).(stack := m.stack + [if op == '/' then q else r]))
  {
  }

  /**
   * As written, the division pattern is right for a non-negative dividend:
   * with rdx cleared, rdx:rax is the dividend itself.
   */
  lemma DivNonNegative(op: char, s: seq<int>, a: int, b: int, regs: map<Register, int>)
    requires op == '/' || op == '%'
    requires Signed64(a) && Signed64(b) && a >= 0 && b != 0
    ensures Run(OpeCode(op).value, Machine(regs, s + [a, b])).Some?
    ensures Run(OpeCode(op).value, Machine(regs, s + [a, b])).value.stack ==
              s + [if op == '/' then TruncDiv(a, b) else TruncMod(a, b)]
  {
    DivWrittenRun(op, s, a, b, regs);
    QuotientFits(a, b);
    var m3 := Machine(regs[RDX := 0][RCX := b][RAX := a], s);
    IdivExact(m3, a, b);
    PushResult(op, m3, TruncDiv(a, b), TruncMod(a, b));
  }

  /**
   * The discrepancy: with rdx cleared, a negative dividend is read as a large
   * unsigned one, so -7 / 2 leaves 2^63 - 4 on the stack instead of -3, with
   * remainder 1.
   */
  lemma DivNegativeWrong(regs: map<Register, int>)
    ensures Run(OpeCode('/').value, Machine(regs, [-7, 2])).Some?
    ensures Run(OpeCode('/').value, Machine(regs, [-7, 2])).value.stack == [0x7FFF_FFFF_FFFF_FFFC]
    ensures Val(Run(OpeCode('/').value, Machine(regs, [-7, 2])).value, RDX) == 1
    ensures TruncDiv(-7, 2) == -3
  {
    assert [] + [-7, 2] == [-7, 2];
    DivWrittenRun('/', [], -7, 2, regs);
    var m3 := Machine(regs[RDX := 0][RCX := 2][RAX := -7], []);
    assert TruncDiv(Two64 - 7, 2) == 0x7FFF_FFFF_FFFF_FFFC;
    assert TruncMod(Two64 - 7, 2) == 1;
    IdivExact(m3, Two64 - 7, 2);
    PushResult('/', m3, 0x7FFF_FFFF_FFFF_FFFC, 1);
  }

  /** The corrected pattern divides every pair of signed 64-bit operands the way C does, MIN / -1 aside. */
  lemma DivFixedCorrect(op: char, s: seq<int>, a: int, b: int, regs: map<Register, int>)
    requires op == '/' || op == '%'
    requires Signed64(a) && Signed64(b) && b != 0 && !(a == -Two63 && b == -1)
    ensures Run(DivCodeFixed(op), Machine(regs, s + [a, b])).Some?
    ensures Run(DivCodeFixed(op), Machine(regs, s + [a, b])).value.stack ==
              s + [if op == '/' then TruncDiv(a, b) else TruncMod(a, b)]
  {
    DivFixedRun(op, s, a, b, regs);
    QuotientFits(a, b);
    var m3 := Machine(regs[RCX := b][RAX := a][RDX := if a < 0 then -1 else 0], s);
    IdivExact(m3, a, b);
    PushResult(op, m3, TruncDiv(a, b), TruncMod(a, b));
  }

  // ---------------------------------------------------------------------------
  // The output sink
  // ---------------------------------------------------------------------------

  /** The assembly file the emitters write to, as the instructions written so far. */
  class Writer {
    var out: seq<Instr>

    constructor ()
      ensures out == []
    {
      out := [];
    }

    /** One fprintf of a fixed pattern. */
    method Emit(code: seq<Instr>)
      modifies this
      ensures out == old(out) + code
    {
      out := out + code;
    }

    /** CodeWriter_Init_File; false when its assertion fails. */
    method InitFile(globals: Scope) returns (ok: bool)
      modifies this
      ensures ok == InitFileCode(globals).Some?
      ensures out == old(out) + (if ok then InitFileCode(globals).value else [])
    {
      if globals.kind != Global {
        return false;
      }
      Emit([Header(Externs(), globals.nextAddr)]);
      Emit(EntryCode());
      return true;
    }

    /** CodeWriter_stackFrame_start: the opening, then a move per register parameter; false at a missing parameter, after the moves before it. */
    method StackFrameStart(f: FunctionTable) returns (ok: bool)
      modifies this
      ensures ok == FrameStartCode(f).complete
      ensures out == old(out) + FrameStartCode(f).code
    {
      FrameStartParts(f);
      Emit(FrameOpen(f));
      ok := SaveParameters(f, RegisterParams(ParamCount(f)));
      Assoc(old(out), FrameOpen(f), SaveParams(f, RegisterParams(ParamCount(f))).code);
    }

    /** The loop of CodeWriter_stackFrame_start: a move per index below `k`, up to the first missing parameter. */
    method SaveParameters(f: FunctionTable, k: nat) returns (ok: bool)
      requires k <= 6
      modifies this
      ensures ok == SaveParams(f, k).complete
      ensures out == old(out) + SaveParams(f, k).code
    {
      ok := true;
      var i := 0;
      while i < k && ok
        invariant i <= k
        invariant ok == SaveParams(f, i).complete
        invariant out == old(out) + SaveParams(f, i).code
      {
        ok := SaveParameter(f, i, old(out));
        i := i + 1;
      }
      if !ok {
        IncompleteStays(f, i, k);
      }
    }

    /** One turn of that loop: the move for index `i` when that parameter exists. */
    method SaveParameter(f: FunctionTable, i: nat, ghost base: seq<Instr>) returns (ok: bool)
      requires i < 6 && SaveParams(f, i).complete && out == base + SaveParams(f, i).code
      modifies this
      ensures ok == SaveParams(f, i + 1).complete
      ensures out == base + SaveParams(f, i + 1).code
    {
      var p := GetParam(f, i);
      SaveParamsNext(f, i, p);
      if p.None? {
        ok := false;
      } else {
        var mov := Mov(Frame(p.value.addr), Reg(ParamToReg(i)));
        Emit([mov]);
        Assoc(base, SaveParams(f, i).code, [mov]);
        ok := true;
      }
    }

    /** The pop loop of CodeWriter_CallFunction: the first `k` parameter registers filled from the stack. */
    method PopParameters(k: nat)
      requires k <= 6
      modifies this
      ensures out == old(out) + PopParams(k)
    {
      for i := 0 to k
        invariant out == old(out) + PopParams(i)
      {
        Emit([Pop(Reg(ParamToReg(i)))]);
      }
    }

    method StackFrameEnd()
      modifies this
      ensures out == old(out) + FrameEndCode()
    {
      Emit(FrameEndCode());
    }
  }
}
