/**
 SplitString of the common utilities: cut a string at every occurrence of
 one character and append the non-empty pieces, in order, to the caller's
 vector, which keeps whatever it already held.
 */
module Utils {

  datatype Option<T> = None | Some(value: T)

  /**
   `std::string::find_first_of` with a single character: the first position
   at or after `from` holding `c`, or None (`npos`).
   */
  function FindFirstOf(s: string, c: char, from: nat): (r: Option<nat>)
    ensures r.Some? ==> from <= r.value < |s| && s[r.value] == c
    decreases |s| - from
  {
    if from >= |s| then None
    else if s[from] == c then Some(from)
    else FindFirstOf(s, c, from + 1)
  }

  /**
   The pieces of `s` between occurrences of `c`, empty ones dropped: the
   text before the first `c` (when there is any), then the pieces of what
   follows it.
   */
  function Pieces(s: string, c: char): seq<string>
    decreases |s|
  {
    match FindFirstOf(s, c, 0)
    case None => if s == [] then [] else [s]
    case Some(i) => (if i == 0 then [] else [s[..i]]) + Pieces(s[i + 1..], c)
  }

  /** The strings of `ps` joined end to end. */
  function Concat(ps: seq<string>): string
  {
    if ps == [] then [] else ps[0] + Concat(ps[1..])
  }

  /** `s` with every `c` taken out. */
  function Remove(s: string, c: char): string
  {
    if s == [] then [] else (if s[0] == c then [] else [s[0]]) + Remove(s[1..], c)
  }

  // ---------------------------------------------------------------------
  // The search

  /** find_first_of skips no `c`: nothing before what it finds is `c`, nor anything at all when it fails. */
  lemma {:induction false} FindFirstOfIsFirst(s: string, c: char, from: nat)
    ensures FindFirstOf(s, c, from).Some? ==> forall k :: from <= k < FindFirstOf(s, c, from).value ==> s[k] != c
    ensures FindFirstOf(s, c, from).None? ==> forall k :: from <= k < |s| ==> s[k] != c
    decreases |s| - from
  {
    if from < |s| && s[from] != c {
      FindFirstOfIsFirst(s, c, from + 1);
    }
  }

  /** Whatever position is first to hold `c` is what find_first_of returns. */
  lemma FindsFirst(s: string, c: char, from: nat, i: nat)
    requires from <= i < |s| && s[i] == c
    requires forall k :: from <= k < i ==> s[k] != c
    ensures FindFirstOf(s, c, from) == Some(i)
  {
    FindFirstOfIsFirst(s, c, from);
  }

  // ---------------------------------------------------------------------
  // What the pieces are

  /** No piece is empty. */
  lemma {:induction false} PiecesNonEmpty(s: string, c: char)
    ensures forall i :: 0 <= i < |Pieces(s, c)| ==> Pieces(s, c)[i] != []
    decreases |s|
  {
    match FindFirstOf(s, c, 0)
    case None =>
    case Some(i) =>
      PiecesNonEmpty(s[i + 1..], c);
  }

  /** No piece contains the separator. */
  lemma {:induction false} PiecesSeparatorFree(s: string, c: char)
    ensures forall i :: 0 <= i < |Pieces(s, c)| ==> c !in Pieces(s, c)[i]
    decreases |s|
  {
    FindFirstOfIsFirst(s, c, 0);
    match FindFirstOf(s, c, 0)
    case None =>
    case Some(i) =>
      PiecesSeparatorFree(s[i + 1..], c);
      assert c !in s[..i];
  }

  lemma {:induction false} ConcatAppend(ps: seq<string>, qs: seq<string>)
    ensures Concat(ps + qs) == Concat(ps) + Concat(qs)
  {
    if ps == [] {
      assert ps + qs == qs;
    } else {
      assert (ps + qs)[1..] == ps[1..] + qs;
      ConcatAppend(ps[1..], qs);
    }
  }

  lemma {:induction false} RemoveAppend(s: string, t: string, c: char)
    ensures Remove(s + t, c) == Remove(s, c) + Remove(t, c)
  {
    if s == [] {
      assert s + t == t;
    } else {
      assert (s + t)[1..] == s[1..] + t;
      RemoveAppend(s[1..], t, c);
    }
  }

  lemma {:induction false} RemoveAbsent(s: string, c: char)
    requires c !in s
    ensures Remove(s, c) == s
  {
    if s != [] {
      RemoveAbsent(s[1..], c);
    }
  }

  /** Joined back together, the pieces are the string with every separator removed. */
  lemma {:induction false} PiecesJoin(s: string, c: char)
    ensures Concat(Pieces(s, c)) == Remove(s, c)
    decreases |s|
  {
    FindFirstOfIsFirst(s, c, 0);
    match FindFirstOf(s, c, 0)
    case None =>
      RemoveAbsent(s, c);
      if s != [] {
        assert Concat([s]) == s + Concat([]);
      }
    case Some(i) =>
      var head, rest := s[..i], s[i + 1..];
      assert s == head + [c] + rest;
      RemoveAppend(head + [c], rest, c);
      RemoveAppend(head, [c], c);
      assert Remove([c], c) == [];
      RemoveAbsent(head, c);
      PiecesJoin(rest, c);
      var first: seq<string> := if i == 0 then [] else [head];
      ConcatAppend(first, Pieces(rest, c));
      if i != 0 {
        assert Concat(first) == head + Concat([]);
      }
  }

  /** A non-empty string without the separator is one piece: itself. */
  lemma PiecesOfUnbroken(s: string, c: char)
    requires s != [] && c !in s
    ensures Pieces(s, c) == [s]
  {
    assert FindFirstOf(s, c, 0).None?;
  }

  /** A string of separators only, the empty string among them, has no pieces. */
  lemma {:induction false} PiecesOfSeparators(s: string, c: char)
    requires forall k :: 0 <= k < |s| ==> s[k] == c
    ensures Pieces(s, c) == []
    decreases |s|
  {
    if s != [] {
      FindsFirst(s, c, 0, 0);
      PiecesOfSeparators(s[1..], c);
    }
  }

  /** Splitting at one separator and splitting each side give the same pieces. */
  lemma {:induction false} PiecesAround(s1: string, s2: string, c: char)
    ensures Pieces(s1 + [c] + s2, c) == Pieces(s1, c) + Pieces(s2, c)
    decreases |s1|
  {
    var s := s1 + [c] + s2;
    FindFirstOfIsFirst(s1, c, 0);
    match FindFirstOf(s1, c, 0)
    case None =>
      FindsFirst(s, c, 0, |s1|);
      assert s[..|s1|] == s1 && s[|s1| + 1..] == s2;
    case Some(i) =>
      FindsFirst(s, c, 0, i);
      assert s[..i] == s1[..i];
      assert s[i + 1..] == s1[i + 1..] + [c] + s2;
      PiecesAround(s1[i + 1..], s2, c);
  }

  // ---------------------------------------------------------------------
  // The loop, one piece at a time

  /**
   The pieces still to come when the loop of SplitString stands at `b`,
   found with find_first_of from `b` rather than on a copy of the rest.
   */
  function PiecesFrom(s: string, c: char, b: nat): seq<string>
    requires b <= |s|
    decreases |s| - b
  {
    match FindFirstOf(s, c, b)
    case None => if b < |s| then [s[b..]] else []
    case Some(e) => (if e - b >= 1 then [s[b..e]] else []) + PiecesFrom(s, c, e + 1)
  }

  /** Searching a suffix finds what searching the whole string from the same place finds. */
  lemma {:induction false} FindFirstOfSuffix(s: string, c: char, b: nat, from: nat)
    requires b <= |s|
    ensures FindFirstOf(s, c, b + from).None? ==> FindFirstOf(s[b..], c, from).None?
    ensures FindFirstOf(s, c, b + from).Some?
        ==> FindFirstOf(s[b..], c, from) == Some(FindFirstOf(s, c, b + from).value - b)
    decreases |s| - b - from
  {
    if b + from < |s| && s[b + from] != c {
      FindFirstOfSuffix(s, c, b, from + 1);
    }
  }

  /** Searching from `b` finds the pieces of the rest of the string. */
  lemma {:induction false} PiecesFromRest(s: string, c: char, b: nat)
    requires b <= |s|
    ensures PiecesFrom(s, c, b) == Pieces(s[b..], c)
    decreases |s| - b
  {
    FindFirstOfSuffix(s, c, b, 0);
    match FindFirstOf(s, c, b)
    case None =>
    case Some(e) =>
      assert s[b..][..e - b] == s[b..e];
      assert s[b..][e - b + 1..] == s[e + 1..];
      PiecesFromRest(s, c, e + 1);
  }

  // ---------------------------------------------------------------------
  // The caller's vector

  /** A `std::vector<std::string>` the caller owns and SplitString appends to. */
  class StringVector {
    var elems: seq<string>

    constructor (initial: seq<string>)
      ensures elems == initial
    {
      elems := initial;
    }

    method PushBack(x: string)
      modifies this
      ensures elems == old(elems) + [x]
    {
      elems := elems + [x];
    }
  }

  /**
   Appends the pieces of `str` between occurrences of `splitOn`, skipping
   empty ones, to `output`; what it held before stays in front.
   */
  method SplitString(str: string, splitOn: char, output: StringVector)
    modifies output
    ensures output.elems == old(output.elems) + Pieces(str, splitOn)
  {
    var b: nat := 0;
    var e := FindFirstOf(str, splitOn, b);
    while e.Some?
      invariant b <= |str| && e == FindFirstOf(str, splitOn, b)
      invariant output.elems + PiecesFrom(str, splitOn, b) == old(output.elems) + PiecesFrom(str, splitOn, 0)
      decreases |str| - b
    {
      ghost var before := output.elems;
      ghost var piece: seq<string> := if e.value - b >= 1 then [str[b..e.value]] else [];
      ghost var rest := PiecesFrom(str, splitOn, e.value + 1);
      assert before + (piece + rest) == before + piece + rest;
      var len := e.value - b;
      if len >= 1 {
        output.PushBack(str[b..e.value]);
      }
      b := e.value + 1;
      e := FindFirstOf(str, splitOn, b);
    }
    if b < |str| {
      output.PushBack(str[b..]);
    } else {
      assert output.elems + [] == output.elems;
    }
    PiecesFromRest(str, splitOn, 0);
    assert str[0..] == str;
  }

  /**
   The pieces of ":x::y" on ':', for any characters x and y other than ':':
   the empty pieces before the first ':' and between the two ':' are dropped.
   */
  lemma ExamplePieces(x: char, y: char)
    requires x != ':' && y != ':'
    ensures Pieces([':', x, ':', ':', y], ':') == [[x], [y]]
  {
    var s: string := [':', x, ':', ':', y];
    PiecesOfUnbroken([y], ':');
    FindsFirst([':', y], ':', 0, 0);
    assert [':', y][1..] == [y];
    assert Pieces([':', y], ':') == [[y]];
    var t: string := [x, ':', ':', y];
    FindsFirst(t, ':', 0, 1);
    assert t[..1] == [x] && t[2..] == [':', y];
    assert Pieces(t, ':') == [[x], [y]];
    FindsFirst(s, ':', 0, 0);
    assert s[1..] == t;
  }

  /** Splitting ":x::y" on ':' appends "x" and "y" after what the vector held. */
  method SplitExample(x: char, y: char) returns (r: seq<string>)
    requires x != ':' && y != ':'
    ensures r == ["old", [x], [y]]
  {
    var v := new StringVector(["old"]);
    ExamplePieces(x, y);
    SplitString([':', x, ':', ':', y], ':', v);
    r := v.elems;
  }
}
