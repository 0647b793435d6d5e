/**
 * Symbols and identifier ordering (symbol.c, and the Symbol record the
 * symbol tables store).
 */
module Symbols {
  import opened Wrappers
  import opened Registers

  /** A C identifier: a NUL-free string, so strcmp sees all of it. */
  type Name = s: string | '\0' !in s

  /**
   * strcmp on two NUL-terminated strings: the difference of the first pair of
   * characters that differ, where the terminating NUL counts as code 0.
   */
  function Strcmp(a: Name, b: Name): (r: int)
    ensures a == b ==> r == 0
    ensures |a| < |b| && a == b[..|a|] ==> r < 0
    ensures |b| < |a| && b == a[..|b|] ==> r > 0
    decreases |a|
  {
    assert |a| > 0 ==> a[0] in a;
    assert |b| > 0 ==> b[0] in b;
    if |a| == 0 && |b| == 0 then 0
    else if |a| == 0 then 0 - (b[0] as int)
    else if |b| == 0 then a[0] as int
    else if a[0] != b[0] then (a[0] as int) - (b[0] as int)
    else Strcmp(a[1..], b[1..])
  }

  /** The strict order strcmp induces. */
  predicate Less(a: Name, b: Name) {
    Strcmp(a, b) < 0
  }

  lemma NonNulPositive(s: Name)
    requires |s| > 0
    ensures s[0] as int > 0
  {
    assert s[0] in s;
  }

  /** strcmp returns 0 exactly on equal strings. */
  lemma {:induction false} StrcmpZeroIff(a: Name, b: Name)
    ensures Strcmp(a, b) == 0 <==> a == b
    decreases |a|
  {
    if |a| == 0 && |b| == 0 {
    } else if |a| == 0 {
      NonNulPositive(b);
    } else if |b| == 0 {
      NonNulPositive(a);
    } else if a[0] != b[0] {
    } else {
      StrcmpZeroIff(a[1..], b[1..]);
      assert a == [a[0]] + a[1..] && b == [b[0]] + b[1..];
    }
  }

  /** Swapping the operands negates the result. */
  lemma {:induction false} StrcmpAntisymmetric(a: Name, b: Name)
    ensures Strcmp(b, a) == -Strcmp(a, b)
    decreases |a|
  {
    if |a| > 0 && |b| > 0 && a[0] == b[0] {
      StrcmpAntisymmetric(a[1..], b[1..]);
    }
  }

  /** The order is transitive. */
  lemma {:induction false} LessTransitive(a: Name, b: Name, c: Name)
    requires Less(a, b) && Less(b, c)
    ensures Less(a, c)
    decreases |a|
  {
    if |a| == 0 {
      NonNulPositive(c);
    } else {
      NonNulPositive(a);
      if |b| > 0 { NonNulPositive(b); }
      if |c| > 0 { NonNulPositive(c); }
      if a[0] == b[0] && b[0] == c[0] {
        LessTransitive(a[1..], b[1..], c[1..]);
      }
    }
  }

  /** Any two distinct names are ordered one way or the other. */
  lemma LessTotal(a: Name, b: Name)
    ensures a == b || Less(a, b) || Less(b, a)
  {
    StrcmpZeroIff(a, b);
    StrcmpAntisymmetric(a, b);
  }

  /** The order is irreflexive. */
  lemma LessIrreflexive(a: Name)
    ensures !Less(a, a)
  {
    StrcmpZeroIff(a, a);
  }

  /** Base type of a symbol (`type_t` restricted to the values a symbol holds). */
  datatype Type = Byte | Num | Void

  /** Kind of a symbol (`SymbolType`). */
  datatype SymbolKind = Value | Array | PointerToArray | Function

  /**
   * One entry of a symbol table. Source positions (line and column, used only
   * in diagnostics) are not kept. Fields the C initializers leave out are 0,
   * false or, for the register, the enumerator 0 that names no register (None).
   */
  datatype Symbol = Symbol(
    identifier: Name,
    ty: Type,
    typeSize: int,
    kind: SymbolKind,
    hasLength: bool,
    length: int,
    isStatic: bool,
    isParam: bool,
    isDefaultFunction: bool,
    totalSize: int,
    addr: int,
    index: int,
    onRegister: bool,
    reg: Option<Register>)

  /** Symbol_cmp: symbols compare as their identifiers, and compare equal exactly when the identifiers are equal. */
  function SymbolCmp(a: Symbol, b: Symbol): (r: int)
    ensures r == 0 <==> a.identifier == b.identifier
    ensures r < 0 <==> Less(a.identifier, b.identifier)
  {
    StrcmpZeroIff(a.identifier, b.identifier);
    Strcmp(a.identifier, b.identifier)
  }

  /** Symbol_get_type_str. */
  function TypeStr(t: Type): (s: string)
    ensures s == "void" <==> t == Void
    ensures s in {"char", "int", "void"}
  {
    match t
    case Byte => "char"
    case Num => "int"
    case Void => "void"
  }

  /** The names of all three types are distinct. */
  lemma TypeStrInjective(t: Type, u: Type)
    requires TypeStr(t) == TypeStr(u)
    ensures t == u
  {
  }

  /** SymbolType_to_str. */
  function KindStr(k: SymbolKind): (s: string)
    ensures s in {"VALUE", "ARRAY", "POINTER_TO_ARRAY", "FUNCTION"}
    ensures s == "FUNCTION" <==> k == Function
  {
    match k
    case Value => "VALUE"
    case Array => "ARRAY"
    case PointerToArray => "POINTER_TO_ARRAY"
    case Function => "FUNCTION"
  }

  /** The decimal digits of a natural number, most significant first (`%d` for n >= 0). */
  function NatToString(n: nat): (s: string)
    ensures |s| > 0
    ensures forall i :: 0 <= i < |s| ==> '0' <= s[i] <= '9'
    decreases n
  {
    var d := ['0' + (n % 10) as char];
    if n < 10 then d else NatToString(n / 10) + d
  }

  /** `%d`: a leading '-' for negative numbers, then the digits of the magnitude. */
  function IntToString(n: int): string {
    if n < 0 then "-" + NatToString(-n) else NatToString(n)
  }

  /** Reads back a string of decimal digits. */
  function ParseDigits(s: string): int
    decreases |s|
  {
    if |s| == 0 then 0 else 10 * ParseDigits(s[..|s| - 1]) + (s[|s| - 1] as int - '0' as int)
  }

  /** Reads back the output of IntToString. */
  function ParseInt(s: string): int {
    if |s| > 0 && s[0] == '-' then 0 - ParseDigits(s[1..]) else ParseDigits(s)
  }

  lemma {:induction false} NatToStringRoundTrip(n: nat)
    ensures ParseDigits(NatToString(n)) == n
    decreases n
  {
    var d := ['0' + (n % 10) as char];
    if n >= 10 {
      NatToStringRoundTrip(n / 10);
      var s := NatToString(n / 10) + d;
      assert s[..|s| - 1] == NatToString(n / 10);
    }
  }

  /** The decimal rendering of an address reads back as the same address. */
  lemma IntToStringRoundTrip(n: int)
    ensures ParseInt(IntToString(n)) == n
  {
    if n < 0 {
      NatToStringRoundTrip(-n);
      assert ("-" + NatToString(-n))[1..] == NatToString(-n);
    } else {
      NatToStringRoundTrip(n);
    }
  }

  /**
   * _Symbol_get_location_str: the register's name for a symbol held in a
   * register, otherwise its address in decimal. A symbol marked as held in a
   * register whose register field names none reads slot 0 of the table, which is NULL.
   */
  function LocationStr(s: Symbol): (r: Option<string>)
    ensures !s.onRegister ==> r.Some? && ParseInt(r.value) == s.addr
    ensures s.onRegister ==> (r.Some? <==> s.reg.Some?)
    ensures s.onRegister && s.reg.Some? ==> r == NameTable[Ordinal(s.reg.value)]
  {
    if s.onRegister then
      (if s.reg.Some? then Some(ToStr(s.reg.value)) else NameTable[0])
    else
      IntToStringRoundTrip(s.addr);
      Some(IntToString(s.addr))
  }
}
