/** The x86-64 register enumeration and its two lookup tables (registers.h, registers.c). */
module Registers {
  import opened Wrappers

  datatype Register =
    RAX | RBX | RCX | RSP | RBP | RDI | RSI | RDX | R8 | R9 | R10 | R11 | R12 | R13 | R14 | R15

  /** The enumerator's integer value: RAX is 1 and the others follow in declaration order. */
  function Ordinal(r: Register): (n: int)
    ensures 1 <= n <= 16
    ensures r == RAX ==> n == 1
  {
    match r
    case RAX => 1  case RBX => 2  case RCX => 3  case RSP => 4
    case RBP => 5  case RDI => 6  case RSI => 7  case RDX => 8
    case R8 => 9   case R9 => 10  case R10 => 11 case R11 => 12
    case R12 => 13 case R13 => 14 case R14 => 15 case R15 => 16
  }

  /**
   * The name table of Register_to_str, indexed by enumerator value.
   * Slot 0 has no designated initializer, so it holds NULL.
   */
  const NameTable: seq<Option<string>> := [
    None, Some("rax"), Some("rbx"), Some("rcx"), Some("rsp"), Some("rbp"), Some("rdi"), Some("rsi"),
    Some("rdx"), Some("r8"), Some("r9"), Some("r10"), Some("r11"), Some("r12"), Some("r13"),
    Some("r14"), Some("r15")]

  predicate IsLowerAlnum(s: string) {
    forall i :: 0 <= i < |s| ==> ('a' <= s[i] <= 'z') || ('0' <= s[i] <= '9')
  }

  /** Register_to_str: every enumerator has a non-empty lower-case name, and slot 0 is never used. */
  function ToStr(r: Register): (name: string)
    ensures |name| > 0 && IsLowerAlnum(name)
    ensures NameTable[Ordinal(r)] == Some(name)
  {
    NameTable[Ordinal(r)].value
  }

  /** Distinct registers get distinct names, so the table is injective. */
  lemma ToStrInjective(a: Register, b: Register)
    requires a != b
    ensures ToStr(a) != ToStr(b)
  {
  }

  /**
   * Register_param_to_reg: the integer-class argument registers of section 3.2.3
   * of the System V AMD64 ABI, in order. Positions outside 0..5 fail the assertion.
   */
  function ParamToReg(i: int): (r: Register)
    requires 0 <= i < 6
    ensures r != RAX && r != RSP && r != RBP
    ensures r in {RDI, RSI, RDX, RCX, R8, R9}
  {
    [RDI, RSI, RDX, RCX, R8, R9][i]
  }

  /** No two parameter positions share a register. */
  lemma ParamToRegInjective(i: int, j: int)
    requires 0 <= i < 6 && 0 <= j < 6 && i != j
    ensures ParamToReg(i) != ParamToReg(j)
  {
  }
}
