/**
 * The early linear symbol table of table.c: a buffer of cells, the first
 * `realLen` of which are in use, grown by doubling. Each cell records a
 * name, a type, a size in bytes and an address. Every cell after the first
 * starts where the previous one ends; the first cell's address is read from
 * the memory just before the buffer, so the cells lie side by side from an
 * address table.c does not choose. `STable.AddIntended` is the add that
 * places the first cell at 0.
 */
module Table {
  import opened Symbols

  /** TABLE_INIT_SIZE and TABLE_REALLOC_MULT. */
  const InitSize: nat := 10
  const ReallocMult: nat := 2

  /** The length of the `name` field of a cell. */
  const NameField: nat := 64

  /** Symbol_Type. */
  datatype CellType = Char | Int

  /** Cell: the address is a byte offset (the C field is a `void*`). */
  datatype Cell = Cell(size: int, cellType: CellType, addr: int, name: string)

  /** _stable_add_size: one byte per CHAR element, four per INT element. */
  function CellSize(t: CellType, count: int): (r: int)
    ensures t == Char ==> r == count
    ensures t == Int ==> r == 4 * count
  {
    match t
    case Char => 1 * count
    case Int => 4 * count
  }

  /** The address the `k`-th cell receives: 0 for the first, the end of the previous cell otherwise. */
  function CellAddr(cells: seq<Cell>, k: nat): int
    requires k <= |cells|
  {
    if k == 0 then 0 else cells[k - 1].addr + cells[k - 1].size
  }

  /** The cells lie one after the other from address 0. */
  predicate Contiguous(cells: seq<Cell>) {
    forall i :: 0 <= i < |cells| ==> cells[i].addr == CellAddr(cells, i)
  }

  /** The number of bytes the cells occupy together. */
  function TotalSize(cells: seq<Cell>): int
    decreases |cells|
  {
    if |cells| == 0 then 0 else TotalSize(cells[..|cells| - 1]) + cells[|cells| - 1].size
  }

  lemma ContiguousPrefix(cells: seq<Cell>, k: nat)
    requires Contiguous(cells) && k <= |cells|
    ensures Contiguous(cells[..k])
  {
    forall i | 0 <= i < k ensures cells[..k][i].addr == CellAddr(cells[..k], i) {
      if i > 0 {
        assert cells[..k][i - 1] == cells[i - 1];
      }
    }
  }

  /** Each cell starts where the cells before it end. */
  lemma {:induction false} AddrIsPrefixSize(cells: seq<Cell>, i: nat)
    requires Contiguous(cells) && i < |cells|
    ensures cells[i].addr == TotalSize(cells[..i])
    decreases i
  {
    if i > 0 {
      AddrIsPrefixSize(cells, i - 1);
      var pre := cells[..i];
      assert pre[..|pre| - 1] == cells[..i - 1];
      assert pre[|pre| - 1] == cells[i - 1];
    }
  }

  /** With sizes that are not negative, two different cells do not overlap. */
  lemma {:induction false} CellsDisjoint(cells: seq<Cell>, i: nat, j: nat)
    requires Contiguous(cells) && i < j < |cells|
    requires forall k :: 0 <= k < |cells| ==> cells[k].size >= 0
    ensures cells[i].addr + cells[i].size <= cells[j].addr
    decreases j
  {
    if i < j - 1 {
      CellsDisjoint(cells, i, j - 1);
    }
  }

  /** A cell appended at the address CellAddr gives it keeps the cells contiguous. */
  lemma ContiguousAppend(cells: seq<Cell>, c: Cell)
    requires Contiguous(cells) && c.addr == CellAddr(cells, |cells|)
    ensures Contiguous(cells + [c])
  {
    var s := cells + [c];
    forall i | 0 <= i < |s| ensures s[i].addr == CellAddr(s, i) {
      if 0 < i < |s| - 1 {
        assert s[i - 1] == cells[i - 1];
      } else if i == |s| - 1 && i > 0 {
        assert s[i - 1] == cells[i - 1];
      }
    }
  }

  /**
   * The address STable_add writes, as written: line 74 sets 0 for the first
   * cell, and line 76 overwrites it with the end of the cell at index
   * `realLen - 1`. For the first cell that is the memory just before the
   * buffer, given here as `before`.
   */
  function AddrAsWritten(cells: seq<Cell>, k: nat, before: Cell): (r: int)
    requires k <= |cells|
    ensures 0 < k ==> r == CellAddr(cells, k)
    ensures k == 0 ==> r == CellAddr(cells, 0) + before.addr + before.size
  {
    var prev := if k == 0 then before else cells[k - 1];
    prev.addr + prev.size
  }

  /** The first cell's address as written comes from whatever precedes the buffer: it need not be 0. */
  lemma FirstAddrAsWritten()
    ensures AddrAsWritten([], 0, Cell(4, Int, 8, "x")) == 12 != CellAddr([], 0)
  {
  }

  /** Every cell after the first starts where the previous one ends: what the adds as written keep. */
  predicate ContiguousAfterFirst(cells: seq<Cell>) {
    forall i :: 1 <= i < |cells| ==> cells[i].addr == CellAddr(cells, i)
  }

  /** A cell appended at the address as written keeps the cells after the first contiguous. */
  lemma AsWrittenAppend(cells: seq<Cell>, c: Cell, before: Cell)
    requires ContiguousAfterFirst(cells) && c.addr == AddrAsWritten(cells, |cells|, before)
    ensures ContiguousAfterFirst(cells + [c])
  {
    var s := cells + [c];
    forall i | 1 <= i < |s| ensures s[i].addr == CellAddr(s, i) {
      assert s[i - 1] == cells[i - 1];
      if i < |s| - 1 {
        assert s[i] == cells[i];
      }
    }
  }

  /** A cell appended where the intended rule puts it keeps both the as-written invariant and a table laid from 0. */
  lemma IntendedAppend(cells: seq<Cell>, c: Cell)
    requires ContiguousAfterFirst(cells) && c.addr == CellAddr(cells, |cells|)
    ensures ContiguousAfterFirst(cells + [c])
    ensures Contiguous(cells) ==> Contiguous(cells + [c])
  {
    AsWrittenAppend(cells, c, Cell(0, Int, 0, ""));
    if Contiguous(cells) {
      ContiguousAppend(cells, c);
    }
  }

  /**
   * As written, the whole table is shifted by the first cell's address: each
   * cell starts at the first cell's address plus the sizes of the cells
   * before it. The table lies from 0 exactly when the first address is 0.
   */
  lemma {:induction false} AsWrittenOffset(cells: seq<Cell>, i: nat)
    requires ContiguousAfterFirst(cells) && i < |cells|
    ensures cells[i].addr == cells[0].addr + TotalSize(cells[..i])
    decreases i
  {
    if i == 0 {
      assert cells[..0] == [];
    } else {
      AsWrittenOffset(cells, i - 1);
      var pre := cells[..i];
      assert pre[..|pre| - 1] == cells[..i - 1];
      assert pre[|pre| - 1] == cells[i - 1];
    }
  }

  /** The adds as written, started from a first cell at 0, give the intended layout. */
  lemma AsWrittenFromZero(cells: seq<Cell>)
    requires ContiguousAfterFirst(cells) && (|cells| > 0 ==> cells[0].addr == 0)
    ensures Contiguous(cells)
  {
  }

  /** A name that holds exactly when some cell in use bears it. */
  predicate HasName(cells: seq<Cell>, name: Name) {
    exists i :: 0 <= i < |cells| && cells[i].name == name
  }

  /** Symbol_Table. */
  class STable {
    var tab: array<Cell>
    var realLen: nat
    var maxLen: nat

    /**
     * The buffer has `maxLen` cells, one of them always spare, the names
     * fit the 64-byte field with their NUL, and every cell in use after the
     * first starts where the previous one ends.
     */
    ghost predicate Valid()
      reads this, tab
    {
      tab.Length == maxLen && realLen < maxLen &&
      (forall i :: 0 <= i < realLen ==> '\0' !in tab[i].name && |tab[i].name| < NameField) &&
      ContiguousAfterFirst(tab[..realLen])
    }

    /** The cells in use. */
    ghost function Cells(): seq<Cell>
      reads this, tab
      requires Valid()
    {
      tab[..realLen]
    }

    /** STable_init: ten cells, none in use. A failed malloc is not modelled. */
    constructor ()
      ensures Valid() && Cells() == [] && maxLen == InitSize
      ensures fresh(tab)
    {
      tab := new Cell[InitSize];
      maxLen := InitSize;
      realLen := 0;
    }

    /** _stable_realloc: the buffer doubles and keeps its cells. */
    method Realloc()
      requires Valid()
      modifies this
      ensures Valid() && maxLen == old(maxLen) * ReallocMult && realLen == old(realLen)
      ensures fresh(tab)
      ensures Cells() == old(Cells())
    {
      var bigger := new Cell[maxLen * ReallocMult];
      forall i | 0 <= i < maxLen {
        bigger[i] := tab[i];
      }
      assert bigger[..realLen] == tab[..realLen];
      tab := bigger;
      maxLen := maxLen * ReallocMult;
    }

    /**
     * STable_add as written: the buffer doubles when only one cell is
     * spare, then one cell is appended. Its address is the end of the cell
     * at index `realLen - 1`; for the first cell that is the memory just
     * before the buffer, given as `before`, and the 0 stored just before is
     * lost. Nothing checks that the name is new.
     */
    method Add(name: Name, t: CellType, count: int, before: Cell)
      requires Valid() && |name| < NameField
      modifies this, tab
      ensures Valid()
      ensures Cells() == old(Cells()) + [Cell(CellSize(t, count), t, AddrAsWritten(old(Cells()), old(realLen), before), name)]
      ensures maxLen == if old(realLen) + 1 == old(maxLen) then old(maxLen) * ReallocMult else old(maxLen)
    {
      if realLen + 1 == maxLen {
        Realloc();
      }
      ghost var cells := Cells();
      // Line 74 stores 0 for the first cell; line 76 overwrites it in every case.
      var prev := if realLen == 0 then before else tab[realLen - 1];
      var addr := prev.addr + prev.size;
      var c := Cell(CellSize(t, count), t, addr, name);
      AsWrittenAppend(cells, c, before);
      tab[realLen] := c;
      assert tab[..realLen + 1] == cells + [c];
      realLen := realLen + 1;
    }

    /**
     * STable_add as its line 74 intends it: the first cell at address 0,
     * each later one at the end of the previous one, so that a table filled
     * only by this add lies side by side from 0.
     */
    method AddIntended(name: Name, t: CellType, count: int)
      requires Valid() && |name| < NameField
      modifies this, tab
      ensures Valid()
      ensures Cells() == old(Cells()) + [Cell(CellSize(t, count), t, CellAddr(old(Cells()), old(realLen)), name)]
      ensures Contiguous(old(Cells())) ==> Contiguous(Cells())
      ensures maxLen == if old(realLen) + 1 == old(maxLen) then old(maxLen) * ReallocMult else old(maxLen)
    {
      if realLen + 1 == maxLen {
        Realloc();
      }
      ghost var cells := Cells();
      var addr := if realLen == 0 then 0 else tab[realLen - 1].addr + tab[realLen - 1].size;
      var c := Cell(CellSize(t, count), t, addr, name);
      IntendedAppend(cells, c);
      tab[realLen] := c;
      assert tab[..realLen + 1] == cells + [c];
      realLen := realLen + 1;
    }

    /** STable_is_in: a scan of the cells in use for a name strcmp finds equal. */
    method IsIn(name: Name) returns (b: bool)
      requires Valid()
      ensures b <==> HasName(Cells(), name)
    {
      var i := 0;
      while i < realLen
        invariant 0 <= i <= realLen
        invariant forall k :: 0 <= k < i ==> tab[k].name != name
      {
        var stored: Name := tab[i].name;
        StrcmpZeroIff(stored, name);
        if Strcmp(stored, name) == 0 {
          assert Cells()[i].name == name;
          return true;
        }
        i := i + 1;
      }
      return false;
    }

    /** STable_set_empty: no cell in use, the buffer kept. */
    method SetEmpty()
      requires Valid()
      modifies this
      ensures Valid() && Cells() == [] && maxLen == old(maxLen) && tab == old(tab)
    {
      realLen := 0;
    }
  }
}
