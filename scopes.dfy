/**
 * The scope tables of symboltable.c and of its later revision symbolTable.c,
 * which run the same algorithm. A scope is a duplicate-free list of symbols
 * kept sorted by name; each symbol remembers the order it was declared in
 * (`index`) and receives an address from counters that depend on the kind of
 * scope.
 */
module Scopes {
  import opened Wrappers
  import opened Symbols
  import opened Errors
  import ArrayLists

  /** SymbolTableType. */
  datatype TableKind = Global | Local | Param

  /** The value of a SymbolTable: its kind, its symbols in storage order, and its two address counters. */
  datatype Scope = Scope(kind: TableKind, symbols: seq<Symbol>, nextAddr: int, nextAddrParam: int)

  /** _SymbolTable_init: no symbols, `next_addr` 0 and `_next_addr_param` 16. */
  function EmptyScope(kind: TableKind): Scope {
    Scope(kind, [], 0, 16)
  }

  /** The name the scope comparator (Symbol_cmp) orders by. */
  function Key(s: Symbol): Name {
    s.identifier
  }

  /** The position of the first symbol named `n`. */
  function FindName(syms: seq<Symbol>, n: Name): (r: Option<nat>)
    ensures r.Some? ==> r.value < |syms| && syms[r.value].identifier == n
    ensures r.Some? ==> forall j :: 0 <= j < r.value ==> syms[j].identifier != n
    ensures r.None? ==> forall j :: 0 <= j < |syms| ==> syms[j].identifier != n
  {
    if |syms| == 0 then None
    else if syms[0].identifier == n then Some(0)
    else
      match FindName(syms[1..], n)
      case None => None
      case Some(i) => Some(i + 1)
  }

  predicate HasName(syms: seq<Symbol>, n: Name) {
    FindName(syms, n).Some?
  }

  /** SymbolTable_get: the symbol of that name, or NULL. */
  function Get(sc: Scope, n: Name): (r: Option<Symbol>)
    ensures r.Some? ==> r.value in sc.symbols && r.value.identifier == n
    ensures r.None? <==> forall s :: s in sc.symbols ==> s.identifier != n
  {
    match FindName(sc.symbols, n)
    case Some(i) => Some(sc.symbols[i])
    case None => None
  }

  /** Storage is strictly ordered by name, hence free of duplicates. */
  ghost predicate StrictlySorted(syms: seq<Symbol>) {
    forall i, j :: 0 <= i < j < |syms| ==> Less(syms[i].identifier, syms[j].identifier)
  }

  /** The declaration indices are exactly 0 .. n-1, each used once. */
  ghost predicate Indexed(syms: seq<Symbol>) {
    (forall i :: 0 <= i < |syms| ==> 0 <= syms[i].index < |syms|) &&
    (forall i, j :: 0 <= i < j < |syms| ==> syms[i].index != syms[j].index) &&
    (forall k :: 0 <= k < |syms| ==> IndexUsed(syms, k))
  }

  /** Some symbol carries declaration index `k`. */
  ghost predicate IndexUsed(syms: seq<Symbol>, k: int) {
    exists i :: 0 <= i < |syms| && syms[i].index == k
  }

  ghost predicate Valid(sc: Scope) {
    StrictlySorted(sc.symbols) && Indexed(sc.symbols)
  }

  /**
   * On a valid scope the symbol of a name is unique, so the binary search of
   * the C code and this first-match lookup find the same one.
   */
  lemma GetUnique(sc: Scope, i: int)
    requires Valid(sc) && 0 <= i < |sc.symbols|
    ensures Get(sc, sc.symbols[i].identifier) == Some(sc.symbols[i])
  {
    var n := sc.symbols[i].identifier;
    var j := FindName(sc.symbols, n).value;
    if j < i {
      LessIrreflexive(n);
    }
  }

  /** The number of leading symbols whose names sort before `n`: ArrayLists.InsertionIndex under the name comparator. */
  function NameIndex(syms: seq<Symbol>, n: Name): (p: nat)
    ensures p <= |syms|
  {
    if |syms| == 0 || !Less(syms[0].identifier, n) then 0 else 1 + NameIndex(syms[1..], n)
  }

  lemma {:induction false} NameIndexIsInsertionIndex(syms: seq<Symbol>, n: Name)
    ensures NameIndex(syms, n) == ArrayLists.InsertionIndex(syms, Key, n)
  {
    if |syms| > 0 && Less(syms[0].identifier, n) {
      NameIndexIsInsertionIndex(syms[1..], n);
    }
  }

  /** The insertion ArrayList_sorted_insert performs, on a name the scope does not hold. */
  function SortedInsert(syms: seq<Symbol>, x: Symbol): (t: seq<Symbol>)
    ensures |t| == |syms| + 1
  {
    var p := NameIndex(syms, x.identifier);
    syms[..p] + [x] + syms[p..]
  }

  lemma SortedInsertContents(syms: seq<Symbol>, x: Symbol)
    ensures multiset(SortedInsert(syms, x)) == multiset(syms) + multiset{x}
  {
    var p := NameIndex(syms, x.identifier);
    assert syms == syms[..p] + syms[p..];
  }

  lemma StrictToSorted(syms: seq<Symbol>)
    requires StrictlySorted(syms)
    ensures ArrayLists.Sorted(syms, Key)
  {
    forall i, j | 0 <= i < j < |syms| ensures ArrayLists.AtMost(Key(syms[i]), Key(syms[j])) {
      ArrayLists.LessIsAtMost(syms[i].identifier, syms[j].identifier);
    }
  }

  lemma {:induction false} InsertIsStrictlySorted(syms: seq<Symbol>, x: Symbol)
    requires StrictlySorted(syms) && !HasName(syms, x.identifier)
    ensures StrictlySorted(SortedInsert(syms, x))
    ensures ArrayLists.InsertionPoint(syms, Key, x.identifier, NameIndex(syms, x.identifier))
  {
    var k := x.identifier;
    StrictToSorted(syms);
    assert !ArrayLists.HasKey(syms, Key, k);
    ArrayLists.InsertionIndexIsPoint(syms, Key, k);
    NameIndexIsInsertionIndex(syms, k);
    var p := NameIndex(syms, k);
    var t := SortedInsert(syms, x);
    assert t == syms[..p] + [x] + syms[p..];
    forall i, j | 0 <= i < j < |t| ensures Less(t[i].identifier, t[j].identifier) {
      if j < p {
        assert t[i] == syms[i] && t[j] == syms[j];
      } else if j == p {
        assert t[j] == x && t[i] == syms[i] && Key(syms[i]) == syms[i].identifier;
      } else if i == p {
        assert t[i] == x && t[j] == syms[j - 1] && Key(syms[j - 1]) == syms[j - 1].identifier;
      } else if i < p {
        assert t[i] == syms[i] && t[j] == syms[j - 1];
      } else {
        assert t[i] == syms[i - 1] && t[j] == syms[j - 1];
      }
    }
  }

  lemma {:induction false} InsertIsIndexed(syms: seq<Symbol>, x: Symbol)
    requires Indexed(syms) && x.index == |syms|
    ensures Indexed(SortedInsert(syms, x))
  {
    var p := NameIndex(syms, x.identifier);
    var t := SortedInsert(syms, x);
    var n := |syms|;
    assert t == syms[..p] + [x] + syms[p..];
    assert forall i :: 0 <= i < p ==> t[i] == syms[i];
    assert forall i :: p < i < |t| ==> t[i] == syms[i - 1];
    assert t[p] == x;
    forall i | 0 <= i < |t| ensures 0 <= t[i].index < |t| {
      if i < p { assert t[i] == syms[i]; } else if i > p { assert t[i] == syms[i - 1]; }
    }
    forall i, j | 0 <= i < j < |t| ensures t[i].index != t[j].index {
      if i == p {
        assert t[j] == syms[j - 1];
      } else if j == p {
        assert t[i] == syms[i];
      } else {
        var a := if i < p then i else i - 1;
        var b := if j < p then j else j - 1;
        assert t[i] == syms[a] && t[j] == syms[b] && a < b;
      }
    }
    forall k | 0 <= k < |t| ensures IndexUsed(t, k) {
      if k == n {
        assert t[p].index == k;
      } else {
        assert IndexUsed(syms, k);
        var i :| 0 <= i < n && syms[i].index == k;
        if i < p { assert t[i] == syms[i]; } else { assert t[i + 1] == syms[i]; }
      }
    }
  }

  /**
   * The symbol as _SymbolTable_add stores it: marked as a parameter in a
   * parameter table, addressed from the kind's counter, and indexed by the
   * table's length before the insertion.
   */
  function Placed(sc: Scope, sym: Symbol): (p: Symbol)
    ensures p.identifier == sym.identifier && p.kind == sym.kind && p.totalSize == sym.totalSize
    ensures p.index == |sc.symbols|
    ensures p.isParam == (sym.isParam || sc.kind == Param)
  {
    var s := if sc.kind == Param then sym.(isParam := true) else sym;
    var addr :=
      if sc.kind == Param then
        (if |sc.symbols| < 6 then -sc.nextAddr - s.totalSize else sc.nextAddrParam)
      else if sc.kind == Global then sc.nextAddr
      else -sc.nextAddr - s.totalSize;
    s.(addr := addr, index := |sc.symbols|)
  }

  /**
   * _SymbolTable_add. A name already present reports a redeclaration and
   * leaves the table as it was, so the first declaration wins; otherwise the
   * placed symbol joins the table, which stays valid.
   */
  function ScopeAdd(sc: Scope, sym: Symbol): (r: (Scope, ErrorSet))
    ensures r.1 <= {SemRedeclaredSymbol}
    ensures SemRedeclaredSymbol in r.1 <==> HasName(sc.symbols, sym.identifier)
    ensures HasName(sc.symbols, sym.identifier) ==> r.0 == sc
    ensures r.0.kind == sc.kind
  {
    if HasName(sc.symbols, sym.identifier) then (sc, {SemRedeclaredSymbol})
    else
      var p := Placed(sc, sym);
      var stacked := sc.kind == Param && |sc.symbols| >= 6;
      var next := if stacked then sc.nextAddr else sc.nextAddr + p.totalSize;
      var nextParam := if stacked then sc.nextAddrParam + p.totalSize else sc.nextAddrParam;
      (Scope(sc.kind, SortedInsert(sc.symbols, p), next, nextParam), {})
  }

  /** A successful add stores exactly the placed symbol besides the ones already there. */
  lemma AddContents(sc: Scope, sym: Symbol)
    requires !HasName(sc.symbols, sym.identifier)
    ensures multiset(ScopeAdd(sc, sym).0.symbols) == multiset(sc.symbols) + multiset{Placed(sc, sym)}
    ensures forall a :: a in ScopeAdd(sc, sym).0.symbols <==> a == Placed(sc, sym) || a in sc.symbols
  {
    var t := ScopeAdd(sc, sym).0.symbols;
    SortedInsertContents(sc.symbols, Placed(sc, sym));
    forall a ensures a in t <==> a == Placed(sc, sym) || a in sc.symbols {
      assert a in t <==> a in multiset(t);
      assert a in sc.symbols <==> a in multiset(sc.symbols);
    }
  }

  /** Adding keeps a table valid: sorted by name without duplicates, indices a permutation of 0 .. n-1. */
  lemma AddKeepsValid(sc: Scope, sym: Symbol)
    requires Valid(sc)
    ensures Valid(ScopeAdd(sc, sym).0)
  {
    if !HasName(sc.symbols, sym.identifier) {
      var p := Placed(sc, sym);
      InsertIsStrictlySorted(sc.symbols, p);
      InsertIsIndexed(sc.symbols, p);
    }
  }

  /** After a successful add the new name finds the placed symbol, and every other name finds what it found before. */
  lemma AddThenGet(sc: Scope, sym: Symbol, n: Name)
    requires Valid(sc) && !HasName(sc.symbols, sym.identifier)
    ensures Get(ScopeAdd(sc, sym).0, sym.identifier) == Some(Placed(sc, sym))
    ensures n != sym.identifier ==> Get(ScopeAdd(sc, sym).0, n) == Get(sc, n)
  {
    AddKeepsValid(sc, sym);
    AddContents(sc, sym);
    GetMember(ScopeAdd(sc, sym).0, Placed(sc, sym));
    if n != sym.identifier {
      var g := Get(sc, n);
      if g.Some? {
        GetMember(ScopeAdd(sc, sym).0, g.value);
      }
    }
  }

  /** On a valid scope every stored symbol is what its name finds. */
  lemma GetMember(sc: Scope, a: Symbol)
    requires Valid(sc) && a in sc.symbols
    ensures Get(sc, a.identifier) == Some(a)
  {
    var i :| 0 <= i < |sc.symbols| && sc.symbols[i] == a;
    GetUnique(sc, i);
  }

  /** A name is held after an add exactly when it was held before or is the added symbol's. */
  lemma AddNames(sc: Scope, sym: Symbol, n: Name)
    ensures HasName(ScopeAdd(sc, sym).0.symbols, n) <==> HasName(sc.symbols, n) || n == sym.identifier
  {
    if !HasName(sc.symbols, sym.identifier) {
      AddContents(sc, sym);
      var t := ScopeAdd(sc, sym).0.symbols;
      var p := Placed(sc, sym);
      if HasName(t, n) {
        var i := FindName(t, n).value;
        assert t[i] in t;
        if t[i] != p {
          assert t[i] in sc.symbols;
          var k :| 0 <= k < |sc.symbols| && sc.symbols[k] == t[i];
        }
      }
      if HasName(sc.symbols, n) {
        var i := FindName(sc.symbols, n).value;
        assert sc.symbols[i] in t;
        var k :| 0 <= k < |t| && t[k] == sc.symbols[i];
      }
      if n == sym.identifier {
        assert p in t;
        var k :| 0 <= k < |t| && t[k] == p;
      }
    }
  }

  /** Symbols that occupy storage; function symbols in the global scope do not. */
  predicate Storage(s: Symbol) {
    s.kind != Function
  }

  /**
   * The byte range a stored symbol may occupy. Globals grow upward from
   * `floor`; locals grow downward from `-floor`; the first six parameters grow
   * downward from 0 (they are copied from registers into the callee's frame);
   * the others lie at positive offsets from 16, where the caller pushed them.
   */
  ghost predicate InRegion(sc: Scope, s: Symbol, floor: int) {
    match sc.kind
    case Global => floor <= s.addr && s.addr + s.totalSize <= sc.nextAddr
    case Local => -sc.nextAddr <= s.addr && s.addr + s.totalSize <= -floor
    case Param =>
      if s.index < 6 then -sc.nextAddr <= s.addr && s.addr + s.totalSize <= 0
      else 16 <= s.addr && s.addr + s.totalSize <= sc.nextAddrParam
  }

  ghost predicate Disjoint(a: Symbol, b: Symbol) {
    a.addr + a.totalSize <= b.addr || b.addr + b.totalSize <= a.addr
  }

  /** Every stored symbol lies in its region and no two stored symbols overlap. */
  ghost predicate Laid(sc: Scope, floor: int) {
    0 <= floor <= sc.nextAddr && 16 <= sc.nextAddrParam &&
    (forall a :: a in sc.symbols && Storage(a) ==> a.totalSize >= 0 && InRegion(sc, a, floor)) &&
    (forall a, b :: a in sc.symbols && b in sc.symbols && a != b && Storage(a) && Storage(b) ==> Disjoint(a, b))
  }

  /** Adding a symbol of non-negative size keeps the layout. */
  lemma AddKeepsLaid(sc: Scope, sym: Symbol, floor: int)
    requires Laid(sc, floor) && sym.totalSize >= 0
    ensures Laid(ScopeAdd(sc, sym).0, floor)
  {
    if !HasName(sc.symbols, sym.identifier) {
      var t := ScopeAdd(sc, sym).0;
      var p := Placed(sc, sym);
      AddContents(sc, sym);
      forall a | a in t.symbols && Storage(a) ensures a.totalSize >= 0 && InRegion(t, a, floor) {
        if a != p {
          assert a in sc.symbols && InRegion(sc, a, floor);
        }
      }
      forall a, b | a in t.symbols && b in t.symbols && a != b && Storage(a) && Storage(b)
        ensures Disjoint(a, b)
      {
        if a != p && b != p {
          assert a in sc.symbols && b in sc.symbols;
        } else if a == p {
          assert b in sc.symbols && InRegion(sc, b, floor);
        } else {
          assert a in sc.symbols && InRegion(sc, a, floor);
        }
      }
    }
  }

  /** The bytes taken by the stored symbols whose declaration index is below `k`. */
  function SizeBelow(syms: seq<Symbol>, k: int): int
    decreases |syms|
  {
    if |syms| == 0 then 0
    else (if Storage(syms[0]) && syms[0].index < k then syms[0].totalSize else 0) + SizeBelow(syms[1..], k)
  }

  /**
   * The global scope's packing: each stored symbol sits at the total size of
   * the stored symbols declared before it, and the counter is the total size
   * of all of them, so the variables lie side by side, in declaration order,
   * from address 0.
   */
  ghost predicate Packed(sc: Scope) {
    (forall a :: a in sc.symbols && Storage(a) ==> a.addr == SizeBelow(sc.symbols, a.index)) &&
    sc.nextAddr == SizeBelow(sc.symbols, |sc.symbols|)
  }

  lemma {:induction false} SizeBelowAppend(a: seq<Symbol>, b: seq<Symbol>, k: int)
    ensures SizeBelow(a + b, k) == SizeBelow(a, k) + SizeBelow(b, k)
    decreases |a|
  {
    if |a| == 0 {
      assert a + b == b;
    } else {
      assert (a + b)[0] == a[0] && (a + b)[1..] == a[1..] + b;
      SizeBelowAppend(a[1..], b, k);
    }
  }

  /** Two bounds above every stored index count the same symbols. */
  lemma {:induction false} SizeBelowAbove(syms: seq<Symbol>, k1: int, k2: int)
    requires forall i :: 0 <= i < |syms| ==> syms[i].index < k1 && syms[i].index < k2
    ensures SizeBelow(syms, k1) == SizeBelow(syms, k2)
    decreases |syms|
  {
    if |syms| > 0 {
      SizeBelowAbove(syms[1..], k1, k2);
    }
  }

  /** A scope that stores nothing takes no bytes below any bound. */
  lemma {:induction false} SizeBelowNothing(syms: seq<Symbol>, k: int)
    requires forall a :: a in syms ==> !Storage(a)
    ensures SizeBelow(syms, k) == 0
    decreases |syms|
  {
    if |syms| > 0 {
      assert syms[0] in syms;
      SizeBelowNothing(syms[1..], k);
    }
  }

  /** Inserting a symbol adds its own size, when it counts, whatever the storage order. */
  lemma SizeBelowInsert(syms: seq<Symbol>, x: Symbol, k: int)
    ensures SizeBelow(SortedInsert(syms, x), k) == SizeBelow(syms, k) + (if Storage(x) && x.index < k then x.totalSize else 0)
  {
    var q := NameIndex(syms, x.identifier);
    assert syms == syms[..q] + syms[q..];
    SizeBelowAppend(syms[..q], syms[q..], k);
    SizeBelowAppend(syms[..q] + [x], syms[q..], k);
    SizeBelowAppend(syms[..q], [x], k);
    assert SizeBelow([x], k) == (if Storage(x) && x.index < k then x.totalSize else 0) + SizeBelow([x][1..], k);
  }

  /**
   * A global add keeps the packing: the new symbol goes at the counter, which
   * is the size of everything stored before it, and the counter grows by its
   * size. Function symbols, which store nothing, must take no bytes.
   */
  lemma AddKeepsPacked(sc: Scope, sym: Symbol)
    requires sc.kind == Global && Valid(sc) && Packed(sc)
    requires Storage(sym) || sym.totalSize == 0
    ensures Packed(ScopeAdd(sc, sym).0)
  {
    if !HasName(sc.symbols, sym.identifier) {
      var n := |sc.symbols|;
      var p := Placed(sc, sym);
      var t := ScopeAdd(sc, sym).0;
      AddContents(sc, sym);
      SizeBelowAbove(sc.symbols, n, n + 1);
      SizeBelowInsert(sc.symbols, p, n + 1);
      forall a | a in t.symbols && Storage(a) ensures a.addr == SizeBelow(t.symbols, a.index) {
        SizeBelowInsert(sc.symbols, p, a.index);
        if a != p {
          var i :| 0 <= i < n && sc.symbols[i] == a;
        }
      }
    }
  }

  /** A table that stores nothing yet is laid out for any floor at or below its counter. */
  lemma NothingStoredIsLaid(sc: Scope, floor: int)
    requires 0 <= floor <= sc.nextAddr && 16 <= sc.nextAddrParam
    requires forall a :: a in sc.symbols ==> !Storage(a)
    ensures Laid(sc, floor)
  {
  }

  /** The agreement between the buffer's insertion and SortedInsert: on a name absent from a valid table the position the buffer picks is the one SortedInsert uses. */
  lemma BufferInsertAgrees(syms: seq<Symbol>, x: Symbol, p: int)
    requires StrictlySorted(syms) && !HasName(syms, x.identifier)
    requires ArrayLists.Position(syms, Key, x.identifier, p)
    ensures syms[..p] + [x] + syms[p..] == SortedInsert(syms, x)
  {
    StrictToSorted(syms);
    assert !ArrayLists.HasKey(syms, Key, x.identifier);
    ArrayLists.PositionIsInsertionPoint(syms, Key, x.identifier, p);
    ArrayLists.InsertionPointIsIndex(syms, Key, x.identifier, p);
    NameIndexIsInsertionIndex(syms, x.identifier);
  }

  /**
   * A SymbolTable object: the fields _SymbolTable_add updates in place. The
   * symbol buffer is a sequence the methods reassign; the buffer itself is
   * modelled by ArrayLists.ArrayList.
   */
  class ScopeTable {
    var kind: TableKind
    var symbols: seq<Symbol>
    var nextAddr: int
    var nextAddrParam: int

    function View(): Scope
      reads this
    {
      Scope(kind, symbols, nextAddr, nextAddrParam)
    }

    /** _SymbolTable_init followed by setting the table's kind. */
    constructor (kind: TableKind)
      ensures View() == EmptyScope(kind)
    {
      this.kind := kind;
      symbols := [];
      nextAddr := 0;
      nextAddrParam := 16;
    }

    /** _SymbolTable_add. */
    method Add(sym: Symbol) returns (err: ErrorSet)
      modifies this
      ensures View() == ScopeAdd(old(View()), sym).0
      ensures err == ScopeAdd(old(View()), sym).1
    {
      if HasName(symbols, sym.identifier) {
        return {SemRedeclaredSymbol};
      }
      var s := Placed(View(), sym);
      if kind == Param && |symbols| >= 6 {
        nextAddrParam := nextAddrParam + s.totalSize;
      } else {
        nextAddr := nextAddr + s.totalSize;
      }
      symbols := SortedInsert(symbols, s);
      err := {};
    }
  }
}
