/**
 * The growable buffer of arraylist.c. Elements live in an `array` of
 * `capacity` slots, the first `len` of which are in use. The comparator the
 * program installs (Symbol_cmp) is strcmp on a name carried by each element,
 * so a list is given the function `key` that extracts that name.
 */
module ArrayLists {
  import opened Wrappers
  import opened Symbols

  /** ARRAYLIST_REALLOC_BLOCK: the number of slots a full list grows by. */
  const ReallocBlock: nat := 10

  /** `a` compares less than or equal to `b`. */
  predicate AtMost(a: Name, b: Name) {
    !Less(b, a)
  }

  lemma LessAtMost(a: Name, b: Name, c: Name)
    requires Less(a, b) && AtMost(b, c)
    ensures Less(a, c)
  {
    LessTotal(b, c);
    if Less(b, c) { LessTransitive(a, b, c); }
  }

  lemma AtMostLess(a: Name, b: Name, c: Name)
    requires AtMost(a, b) && Less(b, c)
    ensures Less(a, c)
  {
    LessTotal(a, b);
    if Less(a, b) { LessTransitive(a, b, c); }
  }

  lemma AtMostTransitive(a: Name, b: Name, c: Name)
    requires AtMost(a, b) && AtMost(b, c)
    ensures AtMost(a, c)
  {
    if Less(c, a) {
      LessAtMost(c, a, b);
    }
  }

  lemma LessIsAtMost(a: Name, b: Name)
    requires Less(a, b)
    ensures AtMost(a, b)
  {
    if Less(b, a) {
      LessTransitive(a, b, a);
      LessIrreflexive(a);
    }
  }

  /** Elements are in non-decreasing key order. */
  ghost predicate Sorted<T>(s: seq<T>, key: T -> Name) {
    forall i, j :: 0 <= i < j < |s| ==> AtMost(key(s[i]), key(s[j]))
  }

  /**
   * `p` is a place for key `k` that keeps the list sorted: nothing before it
   * compares greater and nothing from it on compares less.
   */
  ghost predicate Position<T>(s: seq<T>, key: T -> Name, k: Name, p: int) {
    0 <= p <= |s| &&
    (forall i :: 0 <= i < p ==> AtMost(key(s[i]), k)) &&
    (forall i :: p <= i < |s| ==> AtMost(k, key(s[i])))
  }

  /** `p` is the insertion point proper: everything before compares less, everything after greater. */
  ghost predicate InsertionPoint<T>(s: seq<T>, key: T -> Name, k: Name, p: int) {
    0 <= p <= |s| &&
    (forall i :: 0 <= i < p ==> Less(key(s[i]), k)) &&
    (forall i :: p <= i < |s| ==> Less(k, key(s[i])))
  }

  /** Some element carries key `k`. */
  ghost predicate HasKey<T>(s: seq<T>, key: T -> Name, k: Name) {
    exists i :: 0 <= i < |s| && key(s[i]) == k
  }

  /** The number of leading elements whose key is less than `k`. */
  function InsertionIndex<T>(s: seq<T>, key: T -> Name, k: Name): (p: nat)
    ensures p <= |s|
  {
    if |s| == 0 || !Less(key(s[0]), k) then 0 else 1 + InsertionIndex(s[1..], key, k)
  }

  /**
   * On a sorted list without key `k` the insertion point is unique: it is the
   * count of leading elements below `k`.
   */
  lemma {:induction false} InsertionPointIsIndex<T>(s: seq<T>, key: T -> Name, k: Name, p: int)
    requires InsertionPoint(s, key, k, p)
    ensures p == InsertionIndex(s, key, k)
    decreases |s|
  {
    if |s| > 0 {
      if p == 0 {
        assert Less(k, key(s[0]));
        LessIrreflexive(k);
        if Less(key(s[0]), k) { LessTransitive(k, key(s[0]), k); }
      } else {
        assert Less(key(s[0]), k);
        assert InsertionPoint(s[1..], key, k, p - 1) by {
          forall i | 0 <= i < p - 1 ensures Less(key(s[1..][i]), k) { assert s[1..][i] == s[i + 1]; }
          forall i | p - 1 <= i < |s| - 1 ensures Less(k, key(s[1..][i])) { assert s[1..][i] == s[i + 1]; }
        }
        InsertionPointIsIndex(s[1..], key, k, p - 1);
      }
    }
  }

  /** On a sorted list without key `k`, the count of leading smaller keys is the insertion point. */
  lemma {:induction false} InsertionIndexIsPoint<T>(s: seq<T>, key: T -> Name, k: Name)
    requires Sorted(s, key) && !HasKey(s, key, k)
    ensures InsertionPoint(s, key, k, InsertionIndex(s, key, k))
    decreases |s|
  {
    if |s| > 0 {
      if Less(key(s[0]), k) {
        assert Sorted(s[1..], key) by {
          forall i, j | 0 <= i < j < |s| - 1 ensures AtMost(key(s[1..][i]), key(s[1..][j])) {
            assert s[1..][i] == s[i + 1] && s[1..][j] == s[j + 1];
          }
        }
        assert !HasKey(s[1..], key, k) by {
          forall i | 0 <= i < |s| - 1 ensures key(s[1..][i]) != k { assert s[1..][i] == s[i + 1]; }
        }
        InsertionIndexIsPoint(s[1..], key, k);
        var p := InsertionIndex(s[1..], key, k);
        forall i | 0 <= i < p + 1 ensures Less(key(s[i]), k) {
          if i > 0 { assert s[i] == s[1..][i - 1]; }
        }
        forall i | p + 1 <= i < |s| ensures Less(k, key(s[i])) {
          assert s[i] == s[1..][i - 1];
        }
      } else {
        assert key(s[0]) != k;
        LessTotal(key(s[0]), k);
        forall i | 0 <= i < |s| ensures Less(k, key(s[i])) {
          if i > 0 { LessAtMost(k, key(s[0]), key(s[i])); }
        }
      }
    }
  }

  /** Without an element of key `k`, a sort-preserving place is the insertion point. */
  lemma PositionIsInsertionPoint<T>(s: seq<T>, key: T -> Name, k: Name, p: int)
    requires Position(s, key, k, p) && !HasKey(s, key, k)
    ensures InsertionPoint(s, key, k, p)
  {
    forall i | 0 <= i < |s| ensures Less(key(s[i]), k) || Less(k, key(s[i])) {
      LessTotal(key(s[i]), k);
    }
  }

  /** Inserting at a sort-preserving place keeps the list sorted. */
  lemma InsertKeepsSorted<T>(s: seq<T>, key: T -> Name, x: T, p: int)
    requires Sorted(s, key) && Position(s, key, key(x), p)
    ensures Sorted(s[..p] + [x] + s[p..], key)
  {
    var t := s[..p] + [x] + s[p..];
    forall i, j | 0 <= i < j < |t| ensures AtMost(key(t[i]), key(t[j])) {
      if j < p {
        assert t[i] == s[i] && t[j] == s[j];
      } else if j == p {
        assert t[j] == x && t[i] == s[i];
      } else if i == p {
        assert t[i] == x && t[j] == s[j - 1];
      } else if i < p {
        assert t[i] == s[i] && t[j] == s[j - 1];
        AtMostTransitive(key(s[i]), key(x), key(s[j - 1]));
      } else {
        assert t[i] == s[i - 1] && t[j] == s[j - 1];
      }
    }
  }

  class ArrayList<T(0)> {
    var arr: array<T>
    var len: nat
    var capacity: nat
    const elementSize: nat
    const key: T -> Name

    ghost predicate Valid()
      reads this
    {
      capacity == arr.Length && len <= capacity
    }

    /** The elements in use, in storage order. */
    ghost function Contents(): seq<T>
      reads this, arr
      requires Valid()
    {
      arr[..len]
    }

    /** ArrayList_init: an empty list with the requested capacity. */
    constructor (elementSize: nat, initialCapacity: nat, key: T -> Name)
      ensures Valid() && Contents() == []
      ensures capacity == initialCapacity
      ensures this.elementSize == elementSize && this.key == key
      ensures fresh(arr)
    {
      this.elementSize := elementSize;
      this.key := key;
      arr := new T[initialCapacity];
      capacity := initialCapacity;
      len := 0;
    }

    /** _ArrayList_realloc, growing only: the first `capacity` slots carry over. */
    method Realloc(newCapacity: nat)
      requires Valid() && capacity <= newCapacity
      modifies this
      ensures Valid() && capacity == newCapacity && len == old(len)
      ensures fresh(arr)
      ensures arr[..old(capacity)] == old(arr[..])
      ensures Contents() == old(Contents())
    {
      var na := new T[newCapacity];
      var i := 0;
      while i < capacity
        invariant Valid() && na.Length == newCapacity && arr == old(arr) && len == old(len)
        invariant 0 <= i <= capacity
        invariant forall j :: 0 <= j < i ==> na[j] == arr[j]
      {
        na[i] := arr[i];
        i := i + 1;
      }
      assert na[..capacity] == arr[..];
      arr := na;
      capacity := newCapacity;
    }

    /** _ArrayList_realloc_extend: grow by one block exactly when the list is full. */
    method ReallocExtend()
      requires Valid()
      modifies this
      ensures Valid() && len == old(len) && len < capacity
      ensures capacity == if old(len) < old(capacity) then old(capacity) else old(capacity) + ReallocBlock
      ensures Contents() == old(Contents())
      ensures old(len) < old(capacity) ==> arr == old(arr)
      ensures old(len) >= old(capacity) ==> fresh(arr)
    {
      if len < capacity {
        return;
      }
      Realloc(capacity + ReallocBlock);
    }

    /** ArrayList_append: the element goes last and the earlier ones stay. */
    method Append(x: T)
      requires Valid()
      modifies this, arr
      ensures Valid()
      ensures Contents() == old(Contents()) + [x]
      ensures capacity == if old(len) < old(capacity) then old(capacity) else old(capacity) + ReallocBlock
    {
      ReallocExtend();
      arr[len] := x;
      len := len + 1;
    }

    /**
     * ArrayList_bsearch_index: on a sorted list, the index of an element that
     * compares equal to `x` if there is one, otherwise the insertion point.
     */
    method BsearchIndex(x: T) returns (idx: int)
      requires Valid() && Sorted(Contents(), key)
      ensures Position(Contents(), key, key(x), idx)
      ensures HasKey(Contents(), key, key(x)) ==> idx < len && key(arr[idx]) == key(x)
      ensures !HasKey(Contents(), key, key(x)) ==> InsertionPoint(Contents(), key, key(x), idx)
    {
      ghost var s := Contents();
      var k := key(x);
      var left: int := 0;
      var right: int := len - 1;
      while left <= right
        invariant 0 <= left <= right + 1 <= len
        invariant forall i :: 0 <= i < left ==> Less(key(s[i]), k)
        invariant forall i :: right < i < len ==> Less(k, key(s[i]))
        decreases right - left
      {
        var mid := (left + right) / 2;
        var cmp := Strcmp(k, key(arr[mid]));
        assert arr[mid] == s[mid];
        if cmp == 0 {
          StrcmpZeroIff(k, key(arr[mid]));
          forall i | 0 <= i < mid ensures AtMost(key(s[i]), k) { }
          forall i | mid <= i < len ensures AtMost(k, key(s[i])) {
            if i == mid { LessIrreflexive(k); }
          }
          assert Position(s, key, k, mid);
          return mid;
        } else if cmp < 0 {
          forall i | mid <= i < len ensures Less(k, key(s[i])) {
            if i > mid { LessAtMost(k, key(s[mid]), key(s[i])); }
          }
          right := mid - 1;
        } else {
          StrcmpAntisymmetric(k, key(s[mid]));
          forall i | 0 <= i <= mid ensures Less(key(s[i]), k) {
            if i < mid { AtMostLess(key(s[i]), key(s[mid]), k); }
          }
          left := mid + 1;
        }
      }
      forall i | 0 <= i < len
        ensures key(s[i]) != k
        ensures i < left ==> AtMost(key(s[i]), k)
        ensures left <= i ==> AtMost(k, key(s[i]))
      {
        LessIrreflexive(k);
        if i < left { LessIsAtMost(key(s[i]), k); } else { LessIsAtMost(k, key(s[i])); }
      }
      assert Position(s, key, k, left);
      idx := left;
    }

    /** The memmove and memcpy of ArrayList_sorted_insert: open a gap at `idx` and put `x` there. */
    method ShiftInsert(idx: int, x: T)
      requires Valid() && 0 <= idx <= len < capacity
      modifies arr
      ensures len == old(len) && capacity == old(capacity)
      ensures arr[..len + 1] == old(arr[..len])[..idx] + [x] + old(arr[..len])[idx..]
    {
      ghost var s := arr[..len];
      var i := len;
      while i > idx
        invariant idx <= i <= len
        invariant forall j :: 0 <= j < i ==> arr[j] == s[j]
        invariant forall j :: i < j <= len ==> arr[j] == s[j - 1]
        decreases i
      {
        arr[i] := arr[i - 1];
        i := i - 1;
      }
      arr[idx] := x;
      assert arr[..len + 1] == s[..idx] + [x] + s[idx..];
    }

    /**
     * ArrayList_sorted_insert: the list stays sorted, gains exactly `x`, and
     * the others keep their relative order around it.
     */
    method SortedInsert(x: T)
      requires Valid() && Sorted(Contents(), key)
      modifies this, arr
      ensures Valid() && Sorted(Contents(), key)
      ensures exists p :: Position(old(Contents()), key, key(x), p) &&
                          Contents() == old(Contents())[..p] + [x] + old(Contents())[p..]
      ensures multiset(Contents()) == multiset(old(Contents())) + multiset{x}
      ensures capacity == if old(len) < old(capacity) then old(capacity) else old(capacity) + ReallocBlock
    {
      ghost var s := Contents();
      ReallocExtend();
      var idx := BsearchIndex(x);
      ShiftInsert(idx, x);
      len := len + 1;
      ghost var t := s[..idx] + [x] + s[idx..];
      assert Contents() == t;
      InsertKeepsSorted(s, key, x, idx);
      assert s == s[..idx] + s[idx..];
      assert multiset(t) == multiset(s) + multiset{x};
    }

    /**
     * ArrayList_get: a negative index counts from the end; the unsigned
     * comparison with `len` makes every index outside [-len, len) give NULL.
     */
    function Get(i: int): (r: Option<T>)
      reads this, arr
      requires Valid()
      ensures r.Some? <==> -(len as int) <= i < len
      ensures r.Some? && i >= 0 ==> r.value == Contents()[i]
      ensures r.Some? && i < 0 ==> r.value == Contents()[|Contents()| + i]
    {
      var j := if i < 0 then len + i else i;
      if j < 0 || j >= len then None else Some(arr[j])
    }

    /** ArrayList_pop: NULL on an empty list, otherwise the last element, which leaves the list. */
    method Pop() returns (r: Option<T>)
      requires Valid()
      modifies this
      ensures Valid() && capacity == old(capacity) && arr == old(arr)
      ensures old(len) == 0 ==> r == None && len == 0
      ensures old(len) > 0 ==> r == Some(old(Contents())[old(len) - 1]) &&
                               Contents() == old(Contents())[..old(len) - 1]
    {
      if len == 0 {
        return None;
      }
      len := len - 1;
      r := Some(arr[len]);
    }

    /**
     * ArrayList_resize: only `len` changes. Shrinking drops the tail; growing
     * within the capacity exposes whatever the slots already hold.
     */
    method Resize(newSize: nat)
      requires Valid() && newSize <= capacity
      modifies this
      ensures Valid() && len == newSize && capacity == old(capacity) && arr == old(arr)
      ensures Contents() == old(arr[..])[..newSize]
      ensures newSize <= old(len) ==> Contents() == old(Contents())[..newSize]
    {
      len := newSize;
    }

    /** ArrayList_clear: the list becomes empty and keeps its buffer. */
    method Clear()
      requires Valid()
      modifies this
      ensures Valid() && Contents() == [] && capacity == old(capacity) && arr == old(arr)
    {
      len := 0;
    }

    /** ArrayList_get_length. */
    function GetLength(): (n: nat)
      reads this, arr
      requires Valid()
      ensures n == |Contents()|
    {
      len
    }

    /**
     * ArrayList_search: the C library's bsearch, which returns some element
     * comparing equal to `x`, or NULL when there is none.
     */
    method Search(x: T) returns (r: Option<nat>)
      requires Valid() && Sorted(Contents(), key)
      ensures r.Some? ==> r.value < len && key(arr[r.value]) == key(x)
      ensures r.None? ==> !HasKey(Contents(), key, key(x))
    {
      ghost var s := Contents();
      var k := key(x);
      var lo, hi := 0, len;
      while lo < hi
        invariant 0 <= lo <= hi <= len
        invariant forall i :: 0 <= i < lo ==> Less(key(s[i]), k)
        invariant forall i :: hi <= i < len ==> Less(k, key(s[i]))
        decreases hi - lo
      {
        var mid := lo + (hi - lo) / 2;
        var cmp := Strcmp(k, key(arr[mid]));
        assert arr[mid] == s[mid];
        if cmp == 0 {
          StrcmpZeroIff(k, key(arr[mid]));
          return Some(mid);
        } else if cmp < 0 {
          forall i | mid <= i < len ensures Less(k, key(s[i])) {
            if i > mid { LessAtMost(k, key(s[mid]), key(s[i])); }
          }
          hi := mid;
        } else {
          StrcmpAntisymmetric(k, key(s[mid]));
          forall i | 0 <= i <= mid ensures Less(key(s[i]), k) {
            if i < mid { AtMostLess(key(s[i]), key(s[mid]), k); }
          }
          lo := mid + 1;
        }
      }
      forall i | 0 <= i < len ensures key(s[i]) != k {
        LessIrreflexive(k);
      }
      r := None;
    }

    /** ArrayList_contains: true exactly when some element compares equal to `x`. */
    method Contains(x: T) returns (b: bool)
      requires Valid() && Sorted(Contents(), key)
      ensures b <==> HasKey(Contents(), key, key(x))
    {
      var r := Search(x);
      if r.Some? {
        assert Contents()[r.value] == arr[r.value];
      }
      b := r.Some?;
    }
  }
}
