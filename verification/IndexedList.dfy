/** The growing list of indexed_list.h: elements with removal marks in two arrays, and the comb
    sort over them. */
module IndexedList {

  datatype Entry<T> = Entry(el: T, marked: bool)

  // ---------------------------------------------------------------- orders and inversions

  /** `cmp(a, b) > 0` says that a belongs behind b. */
  predicate AtMost<T>(cmp: (T, T) -> int, a: T, b: T) {
    cmp(a, b) <= 0
  }

  ghost predicate TotalPreorder<T(!new)>(cmp: (T, T) -> int) {
    (forall a, b :: AtMost(cmp, a, b) || AtMost(cmp, b, a))
    && (forall a, b, c :: AtMost(cmp, a, b) && AtMost(cmp, b, c) ==> AtMost(cmp, a, c))
  }

  predicate Sorted<T>(s: seq<Entry<T>>, cmp: (T, T) -> int) {
    forall i, j :: 0 <= i < j < |s| ==> AtMost(cmp, s[i].el, s[j].el)
  }

  function Swapped<T>(s: seq<T>, i: nat, j: nat): (r: seq<T>)
    requires i < |s| && j < |s|
    ensures |r| == |s|
  {
    s[i := s[j]][j := s[i]]
  }

  lemma SwappedKeeps<T>(s: seq<T>, i: nat, j: nat)
    requires i < |s| && j < |s|
    ensures multiset(Swapped(s, i, j)) == multiset(s)
  {
  }

  /** How many of `s` belong before `x`. */
  function Before<T>(x: T, s: seq<Entry<T>>, cmp: (T, T) -> int): nat {
    if s == [] then 0 else (if cmp(x, s[0].el) > 0 then 1 else 0) + Before(x, s[1..], cmp)
  }

  /** The number of pairs in the wrong order. */
  function Inversions<T>(s: seq<Entry<T>>, cmp: (T, T) -> int): nat {
    if s == [] then 0 else Before(s[0].el, s[1..], cmp) + Inversions(s[1..], cmp)
  }

  lemma {:induction false} BeforeOfSwapped<T>(x: T, s: seq<Entry<T>>, i: nat, cmp: (T, T) -> int)
    requires i + 1 < |s|
    ensures Before(x, Swapped(s, i, i + 1), cmp) == Before(x, s, cmp)
  {
    var r := Swapped(s, i, i + 1);
    if i == 0 {
      assert s[1..][1..] == r[1..][1..];
    } else {
      BeforeOfSwapped(x, s[1..], i - 1, cmp);
      assert r[1..] == Swapped(s[1..], i - 1, i);
    }
  }

  /** Swapping neighbours that are in the wrong order takes away one inversion. */
  lemma {:induction false} OneInversionLess<T(!new)>(s: seq<Entry<T>>, i: nat, cmp: (T, T) -> int)
    requires TotalPreorder(cmp) && i + 1 < |s| && cmp(s[i].el, s[i + 1].el) > 0
    ensures Inversions(s, cmp) == Inversions(Swapped(s, i, i + 1), cmp) + 1
  {
    var r := Swapped(s, i, i + 1);
    if i == 0 {
      assert AtMost(cmp, s[1].el, s[0].el) || AtMost(cmp, s[0].el, s[1].el);
      assert s[1..][1..] == r[1..][1..];
    } else {
      OneInversionLess(s[1..], i - 1, cmp);
      assert r[1..] == Swapped(s[1..], i - 1, i);
      BeforeOfSwapped(s[0].el, s[1..], i - 1, cmp);
    }
  }

  /** Neighbours in order make the whole sequence sorted. */
  lemma {:induction false} NeighboursSuffice<T(!new)>(s: seq<Entry<T>>, cmp: (T, T) -> int)
    requires TotalPreorder(cmp)
    requires |s| > 0 ==> SortedBefore(s, |s| - 1, cmp)
    ensures Sorted(s, cmp)
  {
    forall i, j | 0 <= i < j < |s|
      ensures AtMost(cmp, s[i].el, s[j].el)
    {
      Chain(s, cmp, i, j);
    }
  }

  lemma {:induction false} Chain<T(!new)>(s: seq<Entry<T>>, cmp: (T, T) -> int, i: nat, j: nat)
    requires TotalPreorder(cmp) && i < j < |s| && SortedBefore(s, |s| - 1, cmp)
    ensures AtMost(cmp, s[i].el, s[j].el)
    decreases j
  {
    SortedBeforeAt(s, |s| - 1, cmp, j - 1);
    if i + 1 < j {
      Chain(s, cmp, i, j - 1);
    }
  }

  /** The neighbours up to place `i` are in order. */
  predicate SortedBefore<T>(s: seq<Entry<T>>, i: nat, cmp: (T, T) -> int)
    requires i < |s|
  {
    i == 0 || (SortedBefore(s, i - 1, cmp) && cmp(s[i - 1].el, s[i].el) <= 0)
  }

  lemma {:induction false} SortedBeforeAt<T>(s: seq<Entry<T>>, i: nat, cmp: (T, T) -> int, k: nat)
    requires k < i < |s| && SortedBefore(s, i, cmp)
    ensures AtMost(cmp, s[k].el, s[k + 1].el)
  {
    if k + 1 < i {
      SortedBeforeAt(s, i - 1, cmp, k);
    }
  }

  /** What a comb has made of `start` on its way to place `i`. */
  ghost predicate Combed<T>(start: seq<Entry<T>>, c: seq<Entry<T>>, i: nat, gap: nat, swaps: nat, cmp: (T, T) -> int) {
    |c| == |start| && multiset(c) == multiset(start)
    && (gap == 1 ==> Inversions(c, cmp) + swaps == Inversions(start, cmp))
    && (gap == 1 && swaps == 0 && c != [] ==> i < |c| && SortedBefore(c, i, cmp))
  }

  lemma CombedStep<T(!new)>(start: seq<Entry<T>>, c: seq<Entry<T>>, i: nat, gap: nat, swaps: nat, cmp: (T, T) -> int)
    returns (c': seq<Entry<T>>, swaps': nat)
    requires TotalPreorder(cmp) && gap >= 1 && i + gap < |c| && Combed(start, c, i, gap, swaps, cmp)
    ensures Combed(start, c', i + 1, gap, swaps', cmp)
    ensures cmp(c[i].el, c[i + gap].el) > 0 ==> c' == Swapped(c, i, i + gap) && swaps' == swaps + 1
    ensures cmp(c[i].el, c[i + gap].el) <= 0 ==> c' == c && swaps' == swaps
  {
    c', swaps' := c, swaps;
    if cmp(c[i].el, c[i + gap].el) > 0 {
      c', swaps' := Swapped(c, i, i + gap), swaps + 1;
      SwappedKeeps(c, i, i + gap);
      if gap == 1 {
        OneInversionLess(c, i, cmp);
      }
    }
  }

  // ---------------------------------------------------------------- the gap

  /** The gap of the next comb. */
  function NextGap(gap: nat): (r: nat)
    requires gap >= 1
    ensures 1 <= r <= gap && (gap > 1 ==> r < gap)
  {
    if gap > 1 then
      var shrunk := 10 * gap / 13;
      if shrunk == 10 || shrunk == 9 then 11 else shrunk
    else gap
  }

  // ---------------------------------------------------------------- purging

  function Unmarked<T>(s: seq<Entry<T>>): (r: seq<Entry<T>>)
    ensures |r| <= |s|
  {
    if s == [] then []
    else if s[|s| - 1].marked then Unmarked(s[..|s| - 1])
    else Unmarked(s[..|s| - 1]) + [s[|s| - 1]]
  }

  /** What a purge leaves is what was not marked, every entry as often as before. */
  lemma {:induction false} UnmarkedKeeps<T>(s: seq<Entry<T>>, e: Entry<T>)
    ensures multiset(Unmarked(s))[e] == if e.marked then 0 else multiset(s)[e]
  {
    if s != [] {
      assert s == s[..|s| - 1] + [s[|s| - 1]];
      UnmarkedKeeps(s[..|s| - 1], e);
    }
  }

  // ---------------------------------------------------------------- the list

  class IndexedList<T(==, !new)> {
    const empty: T
    var elements: nat
    var elementArray: array<T>
    var removal: array<bool>

    ghost predicate Valid()
      reads this
    {
      elements <= elementArray.Length == removal.Length && (elementArray as object) != removal
    }

    constructor (initial: nat, def: T)
      ensures Valid() && Contents() == [] && empty == def
      ensures fresh(elementArray) && fresh(removal) && elementArray.Length == initial
    {
      empty := def;
      elements := 0;
      elementArray := new T[initial](_ => def);
      removal := new bool[initial](_ => false);
    }

    function Size(): nat
      reads this
    {
      elementArray.Length
    }

    /** The elements with their marks. */
    ghost function Contents(): (s: seq<Entry<T>>)
      requires Valid()
      reads this, elementArray, removal
      ensures |s| == elements
      ensures forall i :: 0 <= i < elements ==> s[i] == Entry(elementArray[i], removal[i])
    {
      seq(elements, i requires 0 <= i < elements && Valid() reads this, elementArray, removal =>
        Entry(elementArray[i], removal[i]))
    }

    /** Twice the room, or 16 places for a list without any. */
    method Expand()
      requires Valid()
      modifies this
      ensures Valid() && Contents() == old(Contents()) && elements == old(elements)
      ensures Size() == if old(Size()) == 0 then 16 else 2 * old(Size())
      ensures fresh(elementArray) && fresh(removal)
    {
      var size := if Size() == 0 then 16 else 2 * Size();
      var newArray := new T[size](_ => empty);
      var newRemoval := new bool[size](_ => false);
      var i := 0;
      while i < elements
        invariant i <= elements == old(elements) <= size && Valid()
        invariant elementArray == old(elementArray) && removal == old(removal)
        invariant forall k :: 0 <= k < elements ==> elementArray[k] == old(elementArray[k])
        invariant forall k :: 0 <= k < elements ==> removal[k] == old(removal[k])
        invariant forall k :: 0 <= k < i ==> newArray[k] == elementArray[k] && newRemoval[k] == removal[k]
      {
        newArray[i], newRemoval[i] := elementArray[i], removal[i];
        i := i + 1;
      }
      elementArray, removal := newArray, newRemoval;
    }

    method Append(el: T)
      requires Valid()
      modifies this, elementArray, removal
      ensures Valid() && Contents() == old(Contents()) + [Entry(el, false)]
      ensures elementArray == old(elementArray) || fresh(elementArray)
      ensures removal == old(removal) || fresh(removal)
    {
      if elements == Size() {
        Expand();
      }
      elementArray[elements], removal[elements] := el, false;
      elements := elements + 1;
    }

    method Prepend(el: T)
      requires Valid()
      modifies this, elementArray, removal
      ensures Valid() && Contents() == [Entry(el, false)] + old(Contents())
      ensures elementArray == old(elementArray) || fresh(elementArray)
      ensures removal == old(removal) || fresh(removal)
    {
      if elements == Size() {
        Expand();
      }
      MoveUp();
      elementArray[0], removal[0] := el, false;
      elements := elements + 1;
    }

    /** Makes room in front. */
    method MoveUp()
      requires Valid() && elements < Size()
      modifies elementArray, removal
      ensures Valid()
      ensures forall k :: 0 < k <= elements ==> Entry(elementArray[k], removal[k]) == old(Contents())[k - 1]
    {
      ghost var was := Contents();
      var i := elements;
      while i > 0
        invariant 0 <= i <= elements && Valid() && elements == |was|
        invariant forall k :: 0 <= k < i ==> Entry(elementArray[k], removal[k]) == was[k]
        invariant forall k :: i < k <= elements ==> Entry(elementArray[k], removal[k]) == was[k - 1]
      {
        elementArray[i], removal[i] := elementArray[i - 1], removal[i - 1];
        i := i - 1;
      }
    }

    /** Closes the gap at `idx`. */
    method CloseUp(idx: nat)
      requires Valid() && idx < elements
      modifies this`elements, elementArray, removal
      ensures Valid() && Contents() == old(Contents())[..idx] + old(Contents())[idx + 1..]
    {
      ghost var was := Contents();
      elements := elements - 1;
      var j := idx;
      while j < elements
        invariant idx <= j <= elements && Valid() && elements + 1 == |was| && elements < Size()
        invariant forall k :: 0 <= k < idx ==> Entry(elementArray[k], removal[k]) == was[k]
        invariant forall k :: idx <= k < j ==> Entry(elementArray[k], removal[k]) == was[k + 1]
        invariant forall k :: j < k <= elements ==> Entry(elementArray[k], removal[k]) == was[k]
      {
        elementArray[j], removal[j] := elementArray[j + 1], removal[j + 1];
        j := j + 1;
      }
    }

    /** Removes the first element equal to `el`, and says where it was. */
    method Remove(el: T) returns (res: int)
      requires Valid()
      modifies this`elements, elementArray, removal
      ensures Valid()
      ensures -1 <= res < |old(Contents())|
      ensures forall k :: 0 <= k < (if res == -1 then |old(Contents())| else res) ==> old(Contents())[k].el != el
      ensures res == -1 ==> Contents() == old(Contents())
      ensures res != -1 ==> old(Contents())[res].el == el
      ensures res != -1 ==> Contents() == old(Contents())[..res] + old(Contents())[res + 1..]
    {
      var i := 0;
      while i < elements
        invariant i <= elements && Valid() && Contents() == old(Contents())
        invariant forall k :: 0 <= k < i ==> Contents()[k].el != el
      {
        if elementArray[i] == el {
          CloseUp(i);
          return i;
        }
        i := i + 1;
      }
      return -1;
    }

    method RemoveIdx(idx: nat) returns (done: bool)
      requires Valid()
      modifies this`elements, elementArray, removal
      ensures Valid() && done == (idx < |old(Contents())|)
      ensures Contents() == if done then old(Contents())[..idx] + old(Contents())[idx + 1..] else old(Contents())
    {
      done := idx < elements;
      if done {
        CloseUp(idx);
      }
    }

    /** A mark on a place behind the last element is lost when the place is filled. */
    method MarkForRemoval(idx: nat)
      requires Valid()
      modifies removal
      ensures Valid()
      ensures Contents()
           == if idx < elements then old(Contents())[idx := Entry(elementArray[idx], true)] else old(Contents())
    {
      if idx < Size() {
        removal[idx] := true;
      }
    }

    /** Drops the marked elements and keeps the others in their order. */
    method PurgeList()
      requires Valid()
      modifies this`elements, elementArray, removal
      ensures Valid() && Contents() == Unmarked(old(Contents()))
    {
      ghost var was := Contents();
      var leftOver, i := 0, 0;
      while i < elements
        invariant leftOver <= i <= elements == |was| && Valid()
        invariant |Unmarked(was[..i])| == leftOver
        invariant forall k :: 0 <= k < leftOver ==> Entry(elementArray[k], removal[k]) == Unmarked(was[..i])[k]
        invariant forall k :: i <= k < elements ==> Entry(elementArray[k], removal[k]) == was[k]
      {
        assert was[..i + 1][..i] == was[..i];
        if !removal[i] {
          removal[leftOver] := false;
          if i != leftOver {
            elementArray[leftOver] := elementArray[i];
          }
          leftOver := leftOver + 1;
        }
        i := i + 1;
      }
      assert was[..i] == was;
      elements := leftOver;
    }

    method Swap(i: nat, j: nat)
      requires Valid() && i < elements && j < elements
      modifies elementArray, removal
      ensures Valid() && Contents() == Swapped(old(Contents()), i, j)
    {
      var temp := elementArray[j];
      elementArray[j] := elementArray[i];
      elementArray[i] := temp;
      var temp2 := removal[j];
      removal[j] := removal[i];
      removal[i] := temp2;
    }

    /** Puts two elements in order. */
    method Exchange(cmp: (T, T) -> int, i: nat, j: nat) returns (swapped: bool)
      requires Valid() && i < j < elements
      modifies elementArray, removal
      ensures Valid() && swapped == (cmp(old(Contents())[i].el, old(Contents())[j].el) > 0)
      ensures Contents() == if swapped then Swapped(old(Contents()), i, j) else old(Contents())
    {
      swapped := cmp(elementArray[i], elementArray[j]) > 0;
      if swapped {
        Swap(i, j);
      }
    }

    /** One comb: elements at distance `gap` are put in order, from the left. */
    method Comb(cmp: (T, T) -> int, gap: nat) returns (swaps: nat)
      requires Valid() && TotalPreorder(cmp) && gap >= 1
      modifies elementArray, removal
      ensures Valid() && multiset(Contents()) == multiset(old(Contents()))
      ensures gap == 1 ==> Inversions(Contents(), cmp) + swaps == Inversions(old(Contents()), cmp)
      ensures gap == 1 && swaps == 0 ==> Sorted(Contents(), cmp)
    {
      swaps := 0;
      var i := 0;
      ghost var c := Contents();
      while i + gap < elements
        invariant Valid() && elements == |c| && c == Contents()
        invariant Combed(old(Contents()), c, i, gap, swaps, cmp)
      {
        ghost var c', swaps' := CombedStep(old(Contents()), c, i, gap, swaps, cmp);
        var swapped := Exchange(cmp, i, i + gap);
        if swapped {
          swaps := swaps + 1;
        }
        c := c';
        i := i + 1;
      }
      if gap == 1 && swaps == 0 {
        NeighboursSuffice(c, cmp);
      }
    }

    /** Comb sort: terminates, and leaves the same entries in order. */
    method Sort(cmp: (T, T) -> int)
      requires Valid() && TotalPreorder(cmp)
      modifies elementArray, removal
      ensures Valid() && Sorted(Contents(), cmp) && multiset(Contents()) == multiset(old(Contents()))
    {
      if elements < 2 {
        return;
      }
      var gap := elements - 1;
      var swaps := 0;
      var again := true;
      while again
        invariant Valid() && elements == old(elements) && gap >= 1
        invariant multiset(Contents()) == multiset(old(Contents()))
        invariant !again ==> Sorted(Contents(), cmp)
        decreases gap, Inversions(Contents(), cmp), again
      {
        gap := NextGap(gap);
        swaps := Comb(cmp, gap);
        again := swaps != 0 || gap > 1;
      }
    }
  }
}
