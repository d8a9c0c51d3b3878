/** Replacing every occurrence in a string, after mstring::replace in mystring.cc: what the
    result is, on values, and why it is the only one. */
module Replacing {

  predicate OccursAt(t: seq<char>, i: nat, rep: seq<char>) {
    i + |rep| <= |t| && t[i..i + |rep|] == rep
  }

  /** The first place from `from` on where `rep` occurs, or -1. */
  function Find(t: seq<char>, from: nat, rep: seq<char>): (r: int)
    requires from <= |t|
    ensures r == -1 || (from <= r && OccursAt(t, r, rep))
    ensures forall i :: from <= i < (if r == -1 then |t| + 1 else r) ==> !OccursAt(t, i, rep)
    decreases |t| - from
  {
    if OccursAt(t, from, rep) then from
    else if from == |t| then -1
    else Find(t, from + 1, rep)
  }

  /** The pieces between the occurrences, taken from the left without overlap. */
  function Parts(t: seq<char>, rep: seq<char>): (r: seq<seq<char>>)
    requires rep != []
    ensures |r| >= 1
    decreases |t|
  {
    var i := Find(t, 0, rep);
    if i == -1 then [t] else [t[..i]] + Parts(t[i + |rep|..], rep)
  }

  function Joined(parts: seq<seq<char>>, between: seq<char>): seq<char>
    requires |parts| >= 1
  {
    if |parts| == 1 then parts[0] else parts[0] + between + Joined(parts[1..], between)
  }

  function Replaced(t: seq<char>, rep: seq<char>, with: seq<char>): seq<char>
    requires rep != []
  {
    Joined(Parts(t, rep), with)
  }

  /** The first occurrence, and what the rest of the text counts and becomes. */
  lemma FirstStep(t: seq<char>, rep: seq<char>, with: seq<char>, i: int)
    returns (rest: seq<char>, pieces: nat, image: seq<char>)
    requires rep != [] && i == Find(t, 0, rep) && i != -1
    ensures rest == t[i + |rep|..] && pieces == |Parts(rest, rep)| && pieces + 1 == |Parts(t, rep)|
    ensures image == Replaced(rest, rep, with) && Replaced(t, rep, with) == t[..i] + with + image
  {
    rest := t[i + |rep|..];
    pieces, image := |Parts(rest, rep)|, Replaced(rest, rep, with);
    assert Parts(t, rep)[1..] == Parts(rest, rep);
  }

  lemma PartsBehind(front: seq<char>, rep: seq<char>, rest: seq<char>, t: seq<char>)
    requires rep != [] && t == front + rep + rest && Find(t, 0, rep) == |front|
    ensures Parts(t, rep) == [front] + Parts(rest, rep)
  {
    assert t[..|front|] == front && t[|front| + |rep|..] == rest;
  }

  // ---------------------------------------------------------------- what the pieces are

  /** Every piece is cut off by the first occurrence behind its beginning, and the last piece
      has none. */
  predicate LeftmostCuts(parts: seq<seq<char>>, rep: seq<char>)
    requires |parts| >= 1
  {
    if |parts| == 1 then forall i :: 0 <= i <= |parts[0]| ==> !OccursAt(parts[0], i, rep)
    else
      (forall i :: 0 <= i < |parts[0]| ==> !OccursAt(parts[0] + rep, i, rep)) && LeftmostCuts(parts[1..], rep)
  }

  lemma Cut(t: seq<char>, i: nat, rep: seq<char>)
    requires OccursAt(t, i, rep)
    ensures t == t[..i] + rep + t[i + |rep|..]
  {
  }

  /** An occurrence that begins inside the first piece lies within it and the separator. */
  lemma OccursInFront(front: seq<char>, rep: seq<char>, rest: seq<char>, i: nat)
    requires i < |front|
    ensures OccursAt(front + rep + rest, i, rep) == OccursAt(front + rep, i, rep)
  {
    assert (front + rep + rest)[i..i + |rep|] == (front + rep)[i..i + |rep|];
  }

  /** Put together again with what was replaced, the pieces are the text. */
  lemma {:induction false} PartsRejoin(t: seq<char>, rep: seq<char>)
    requires rep != []
    ensures Joined(Parts(t, rep), rep) == t
    decreases |t|
  {
    var i := Find(t, 0, rep);
    if i != -1 {
      Cut(t, i, rep);
      PartsRejoin(t[i + |rep|..], rep);
      assert Parts(t, rep)[1..] == Parts(t[i + |rep|..], rep);
    }
  }

  lemma {:induction false} PartsAreLeftmost(t: seq<char>, rep: seq<char>)
    requires rep != []
    ensures LeftmostCuts(Parts(t, rep), rep)
    decreases |t|
  {
    var i := Find(t, 0, rep);
    if i != -1 {
      Cut(t, i, rep);
      forall j | 0 <= j < i
        ensures !OccursAt(t[..i] + rep, j, rep)
      {
        OccursInFront(t[..i], rep, t[i + |rep|..], j);
      }
      PartsAreLeftmost(t[i + |rep|..], rep);
      assert Parts(t, rep)[1..] == Parts(t[i + |rep|..], rep);
    }
  }

  /** No other cutting of the text is one by leftmost occurrences. */
  lemma {:induction false} PartsAreUnique(parts: seq<seq<char>>, rep: seq<char>)
    requires rep != [] && |parts| >= 1 && LeftmostCuts(parts, rep)
    ensures Parts(Joined(parts, rep), rep) == parts
    decreases |parts|
  {
    var t := Joined(parts, rep);
    if |parts| == 1 {
      NoneFound(t, rep);
      assert parts == [t];
    } else {
      var front, rest := parts[0], Joined(parts[1..], rep);
      FoundBehind(front, rep, rest);
      PartsAreUnique(parts[1..], rep);
      PartsBehind(front, rep, rest, t);
      assert parts == [front] + parts[1..];
    }
  }

  lemma NoneFound(t: seq<char>, rep: seq<char>)
    requires forall i :: 0 <= i <= |t| ==> !OccursAt(t, i, rep)
    ensures Find(t, 0, rep) == -1
  {
  }

  lemma FoundBehind(front: seq<char>, rep: seq<char>, rest: seq<char>)
    requires forall i :: 0 <= i < |front| ==> !OccursAt(front + rep, i, rep)
    ensures Find(front + rep + rest, 0, rep) == |front|
  {
    var t := front + rep + rest;
    assert t[|front|..|front| + |rep|] == rep;
    forall i | 0 <= i < |front|
      ensures !OccursAt(t, i, rep)
    {
      OccursInFront(front, rep, rest, i);
    }
    var r := Find(t, 0, rep);
    assert OccursAt(t, |front|, rep);
  }

  /** The law of replace: for whatever cutting of the text by leftmost occurrences, the result is
      its pieces with the new string between them. */
  lemma ReplacedIs(parts: seq<seq<char>>, rep: seq<char>, with: seq<char>)
    requires rep != [] && |parts| >= 1 && LeftmostCuts(parts, rep)
    ensures Replaced(Joined(parts, rep), rep, with) == Joined(parts, with)
  {
    PartsAreUnique(parts, rep);
  }

  /** Replacing a string by itself changes nothing. */
  lemma ReplacedByItself(t: seq<char>, rep: seq<char>)
    requires rep != []
    ensures Replaced(t, rep, rep) == t
  {
    PartsRejoin(t, rep);
  }

  /** A text changes length by the difference of the strings for each occurrence. */
  lemma {:induction false} LengthOfJoined(parts: seq<seq<char>>, a: seq<char>, b: seq<char>)
    requires |parts| >= 1
    ensures |Joined(parts, b)| == |Joined(parts, a)| + (|b| - |a|) * (|parts| - 1)
  {
    if |parts| > 1 {
      LengthOfJoined(parts[1..], a, b);
      assert (|b| - |a|) * (|parts| - 1) == (|b| - |a|) * (|parts[1..]| - 1) + (|b| - |a|);
    }
  }

  lemma LengthOfReplaced(t: seq<char>, rep: seq<char>, with: seq<char>)
    requires rep != []
    ensures |Replaced(t, rep, with)| == |t| + (|with| - |rep|) * (|Parts(t, rep)| - 1)
  {
    PartsRejoin(t, rep);
    LengthOfJoined(Parts(t, rep), rep, with);
  }

  /** An occurrence seen from the rest of a text. */
  lemma OccursMoves(t: seq<char>, from: nat, i: nat, rep: seq<char>)
    requires from + i <= |t|
    ensures OccursAt(t[from..], i, rep) == OccursAt(t, from + i, rep)
  {
    if i + |rep| <= |t| - from {
      assert t[from..][i..i + |rep|] == t[from + i..from + i + |rep|];
    }
  }
}
