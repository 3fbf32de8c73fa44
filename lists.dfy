/** Sequence operations with the meaning of the JavaScript array methods the editor uses. */
module Lists {

  /** Where `splice(start, ..)` starts: negative counts from the end, past the end clamps. */
  function ClampStart(len: nat, start: int): (r: nat)
    ensures r <= len
    ensures 0 <= start <= len ==> r == start
    ensures start > len ==> r == len
  {
    if start < 0 then (if len + start < 0 then 0 else len + start)
    else if start > len then len
    else start
  }

  /** The array `s` after `s.splice(start, deleteCount, ...items)`. */
  function Splice<T>(s: seq<T>, start: int, deleteCount: nat, items: seq<T>): seq<T> {
    var a := ClampStart(|s|, start);
    var d := if deleteCount <= |s| - a then deleteCount else |s| - a;
    s[..a] + items + s[a + d..]
  }

  /** `s` without position `i`. */
  function RemoveAt<T>(s: seq<T>, i: nat): seq<T>
    requires i < |s|
  {
    s[..i] + s[i + 1..]
  }

  lemma SpliceReplace<T>(s: seq<T>, i: int, x: T)
    requires 0 <= i < |s|
    ensures Splice(s, i, 1, [x]) == s[i := x]
  {
  }

  /** Replacing at or past the end appends. */
  lemma SpliceReplacePastEnd<T>(s: seq<T>, i: int, x: T)
    requires i >= |s|
    ensures Splice(s, i, 1, [x]) == s + [x]
  {
  }

  lemma SpliceRemove<T>(s: seq<T>, i: int)
    requires 0 <= i < |s|
    ensures Splice(s, i, 1, []) == RemoveAt(s, i)
  {
  }

  lemma SpliceInsert<T>(s: seq<T>, i: int, x: T)
    requires 0 <= i <= |s|
    ensures Splice(s, i, 0, [x]) == s[..i] + [x] + s[i..]
  {
  }

  /** A drag-and-drop move: `list.splice(from, 1)`, then `list.splice(to, 0, item)`. */
  function Move<T>(s: seq<T>, from: nat, to: nat): seq<T>
    requires from < |s|
  {
    Splice(Splice(s, from, 1, []), to, 0, [s[from]])
  }

  /**
   * A move keeps length and elements, puts the moved element at `to`, and leaves the
   * others in their relative order.
   */
  lemma MoveSpec<T>(s: seq<T>, from: nat, to: nat)
    requires from < |s| && to < |s|
    ensures |Move(s, from, to)| == |s|
    ensures multiset(Move(s, from, to)) == multiset(s)
    ensures Move(s, from, to)[to] == s[from]
    ensures RemoveAt(Move(s, from, to), to) == RemoveAt(s, from)
  {
    var rest := RemoveAt(s, from);
    SpliceRemove(s, from);
    SpliceInsert(rest, to, s[from]);
    var r := Move(s, from, to);
    assert r == rest[..to] + [s[from]] + rest[to..];
    assert RemoveAt(r, to) == rest by {
      assert r[..to] == rest[..to];
      assert r[to + 1..] == rest[to..];
    }
    calc {
      multiset(r);
      multiset(rest[..to]) + multiset([s[from]]) + multiset(rest[to..]);
      { assert rest == rest[..to] + rest[to..]; }
      multiset(rest) + multiset([s[from]]);
      { assert s == s[..from] + [s[from]] + s[from + 1..]; }
      multiset(s);
    }
  }

  lemma MoveInPlace<T>(s: seq<T>, i: nat)
    requires i < |s|
    ensures Move(s, i, i) == s
  {
    assert s == s[..i] + [s[i]] + s[i + 1..];
  }

  /** `s.filter(p)` */
  function Filter<T>(s: seq<T>, p: T -> bool): seq<T> {
    if |s| == 0 then []
    else (if p(s[0]) then [s[0]] else []) + Filter(s[1..], p)
  }

  /** `filter` keeps the order: it distributes over concatenation, element by element. */
  lemma {:induction false} FilterAppend<T>(a: seq<T>, b: seq<T>, p: T -> bool)
    ensures Filter(a + b, p) == Filter(a, p) + Filter(b, p)
  {
    if |a| == 0 {
      assert a + b == b;
    } else {
      assert (a + b)[0] == a[0];
      assert (a + b)[1..] == a[1..] + b;
      FilterAppend(a[1..], b, p);
    }
  }

  lemma {:induction false} FilterMembers<T>(s: seq<T>, p: T -> bool)
    ensures forall x :: x in Filter(s, p) <==> x in s && p(x)
    ensures |Filter(s, p)| <= |s|
  {
    if |s| > 0 {
      FilterMembers(s[1..], p);
      assert s == [s[0]] + s[1..];
    }
  }

  lemma {:induction false} FilterAll<T>(s: seq<T>, p: T -> bool)
    requires forall i :: 0 <= i < |s| ==> p(s[i])
    ensures Filter(s, p) == s
  {
    if |s| > 0 {
      FilterAll(s[1..], p);
    }
  }

  /** The first index holding `x`, or -1 (`indexOf` / `findIndex` with `===`). */
  function IndexOf<T(==)>(s: seq<T>, x: T): (r: int)
    ensures -1 <= r < |s|
    ensures r == -1 <==> x !in s
    ensures r >= 0 ==> s[r] == x && x !in s[..r]
    ensures r >= 0 ==> forall k :: 0 <= k < r ==> s[k] != x
    ensures r == -1 ==> forall k :: 0 <= k < |s| ==> s[k] != x
  {
    if |s| == 0 then -1
    else if s[0] == x then 0
    else var k := IndexOf(s[1..], x); if k < 0 then -1 else k + 1
  }

  predicate NoDuplicates<T(==)>(s: seq<T>) {
    forall i, j :: 0 <= i < j < |s| ==> s[i] != s[j]
  }
}
