/**
 * Plain string operations that the renderers rely on: where one string
 * occurs inside another, f-string interpolation of values into a template,
 * and Python's `str.join`.
 */
module Text {

  /** `s` occurs in `t` starting at index `i`. */
  predicate OccursAt(t: string, s: string, i: nat) {
    i + |s| <= |t| && t[i..i + |s|] == s
  }

  /** `s` is a substring of `t` (Python's `s in t`). */
  predicate Contains(t: string, s: string) {
    exists i: nat | i <= |t| :: OccursAt(t, s, i)
  }

  /** An occurrence keeps its place, shifted by the length of whatever is put in front. */
  lemma OccursShift(u: string, t: string, s: string, i: nat)
    requires OccursAt(t, s, i)
    ensures OccursAt(u + t, s, |u| + i)
  {
    assert (u + t)[|u| + i..|u| + i + |s|] == t[i..i + |s|];
  }

  /** An occurrence inside an occurrence is an occurrence. */
  lemma OccursWithin(t: string, s: string, u: string, i: nat, j: nat)
    requires OccursAt(t, s, i) && OccursAt(s, u, j)
    ensures OccursAt(t, u, i + j)
  {
    forall k | 0 <= k < |u|
      ensures t[i + j..i + j + |u|][k] == u[k]
    {
      assert u[k] == s[j + k] == t[i + j + k];
    }
  }

  // ---------------------------------------------------------------------
  // f-string interpolation
  // ---------------------------------------------------------------------

  /**
   * An f-string with literal fragments `parts` and interpolated values
   * `vals`: parts[0] + vals[0] + parts[1] + ... + vals[n-1] + parts[n].
   */
  function Interpolate(parts: seq<string>, vals: seq<string>): (r: string)
    requires |parts| == |vals| + 1
    ensures |r| == TotalLength(parts) + TotalLength(vals)
    decreases vals
  {
    if vals == [] then parts[0]
    else parts[0] + vals[0] + Interpolate(parts[1..], vals[1..])
  }

  /** Total length of a sequence of strings. */
  function TotalLength(xs: seq<string>): nat {
    if xs == [] then 0 else |xs[0]| + TotalLength(xs[1..])
  }

  /** Index in `Interpolate(parts, vals)` at which `vals[i]` starts. */
  function Slot(parts: seq<string>, vals: seq<string>, i: nat): nat
    requires |parts| == |vals| + 1 && i < |vals|
    decreases i
  {
    if i == 0 then |parts[0]|
    else |parts[0]| + |vals[0]| + Slot(parts[1..], vals[1..], i - 1)
  }

  /** The first value follows the first fragment, and the second fragment follows it. */
  lemma InterpolateHead(parts: seq<string>, vals: seq<string>)
    requires |parts| == |vals| + 1 && vals != []
    ensures OccursAt(Interpolate(parts, vals), parts[0], 0)
    ensures OccursAt(Interpolate(parts, vals), vals[0], |parts[0]|)
    ensures OccursAt(Interpolate(parts, vals), parts[1], |parts[0]| + |vals[0]|)
  {
    var r := Interpolate(parts, vals);
    var front := parts[0] + vals[0];
    var rest := Interpolate(parts[1..], vals[1..]);
    if |vals| == 1 {
      assert rest == parts[1];
    } else {
      assert rest == parts[1] + vals[1] + Interpolate(parts[2..], vals[2..]);
    }
    assert r == front + rest;
    assert r[0..|parts[0]|] == parts[0];
    assert r[|parts[0]|..|parts[0]| + |vals[0]|] == vals[0];
    assert r[|front|..|front| + |parts[1]|] == parts[1];
  }

  /** Consecutive slots are separated by exactly one value and one fragment. */
  lemma {:induction false} SlotNext(parts: seq<string>, vals: seq<string>, i: nat)
    requires |parts| == |vals| + 1 && i + 1 < |vals|
    ensures Slot(parts, vals, i) + |vals[i]| + |parts[i + 1]| == Slot(parts, vals, i + 1)
    decreases i
  {
    if i > 0 {
      SlotNext(parts[1..], vals[1..], i - 1);
    }
  }

  /**
   * Every interpolated value appears verbatim at its slot, with the literal
   * fragment after it starting right behind it.
   */
  lemma {:induction false} InterpolateAt(parts: seq<string>, vals: seq<string>, i: nat)
    requires |parts| == |vals| + 1 && i < |vals|
    ensures OccursAt(Interpolate(parts, vals), vals[i], Slot(parts, vals, i))
    ensures OccursAt(Interpolate(parts, vals), parts[i + 1], Slot(parts, vals, i) + |vals[i]|)
    decreases i
  {
    if i == 0 {
      InterpolateHead(parts, vals);
    } else {
      var rest := Interpolate(parts[1..], vals[1..]);
      var front := parts[0] + vals[0];
      assert Interpolate(parts, vals) == front + rest;
      InterpolateAt(parts[1..], vals[1..], i - 1);
      var k := Slot(parts[1..], vals[1..], i - 1);
      assert Slot(parts, vals, i) == |front| + k;
      assert vals[1..][i - 1] == vals[i] && parts[1..][i] == parts[i + 1];
      OccursShift(front, rest, vals[i], k);
      OccursShift(front, rest, parts[i + 1], k + |vals[i]|);
    }
  }

  /** The last value and the closing fragment end the text. */
  lemma {:induction false} InterpolateEnd(parts: seq<string>, vals: seq<string>)
    requires |parts| == |vals| + 1 && vals != []
    ensures Slot(parts, vals, |vals| - 1) + |vals[|vals| - 1]| + |parts[|vals|]| == |Interpolate(parts, vals)|
    decreases vals
  {
    if |vals| > 1 {
      InterpolateEnd(parts[1..], vals[1..]);
    }
  }

  /** The literal fragment before a value ends exactly where the value starts. */
  lemma {:induction false} InterpolatePartBefore(parts: seq<string>, vals: seq<string>, i: nat)
    requires |parts| == |vals| + 1 && i < |vals|
    ensures |parts[i]| <= Slot(parts, vals, i)
    ensures OccursAt(Interpolate(parts, vals), parts[i], Slot(parts, vals, i) - |parts[i]|)
  {
    if i == 0 {
      InterpolateHead(parts, vals);
    } else {
      InterpolateAt(parts, vals, i - 1);
      SlotNext(parts, vals, i - 1);
    }
  }

  /** Two occurrences that touch form one occurrence of the concatenation. */
  lemma OccursAdjacent(t: string, x: string, y: string, i: nat)
    requires OccursAt(t, x, i) && OccursAt(t, y, i + |x|)
    ensures OccursAt(t, x + y, i)
  {
    assert t[i..i + |x + y|] == t[i..i + |x|] + t[i + |x|..i + |x| + |y|];
  }

  /** A value together with the fragments around it appears as one block. */
  lemma {:induction false} InterpolateFramed(parts: seq<string>, vals: seq<string>, i: nat)
    requires |parts| == |vals| + 1 && i < |vals|
    ensures |parts[i]| <= Slot(parts, vals, i)
    ensures OccursAt(Interpolate(parts, vals), parts[i] + vals[i] + parts[i + 1], Slot(parts, vals, i) - |parts[i]|)
  {
    var t := Interpolate(parts, vals);
    InterpolatePartBefore(parts, vals, i);
    var k := Slot(parts, vals, i) - |parts[i]|;
    InterpolateAt(parts, vals, i);
    OccursAdjacent(t, parts[i], vals[i], k);
    OccursAdjacent(t, parts[i] + vals[i], parts[i + 1], k);
  }

  /**
   * The strings `xs` occur in `t` at the positions `pos`, in the order of
   * `xs`, each ending before the next one starts.
   */
  predicate InOrder(t: string, xs: seq<string>, pos: seq<nat>) {
    |pos| == |xs|
    && (forall i :: 0 <= i < |xs| ==> OccursAt(t, xs[i], pos[i]))
    && (forall i :: 0 <= i < |xs| - 1 ==> pos[i] + |xs[i]| <= pos[i + 1])
  }

  /** The interpolated values appear in the result verbatim and in order. */
  lemma {:induction false} InterpolateInOrder(parts: seq<string>, vals: seq<string>)
    requires |parts| == |vals| + 1
    ensures exists pos :: InOrder(Interpolate(parts, vals), vals, pos)
  {
    var pos := seq(|vals|, i requires 0 <= i < |vals| => Slot(parts, vals, i));
    forall i | 0 <= i < |vals|
      ensures OccursAt(Interpolate(parts, vals), vals[i], pos[i])
      ensures i < |vals| - 1 ==> pos[i] + |vals[i]| <= pos[i + 1]
    {
      InterpolateAt(parts, vals, i);
      if i < |vals| - 1 {
        SlotNext(parts, vals, i);
      }
    }
    assert InOrder(Interpolate(parts, vals), vals, pos);
  }

  // ---------------------------------------------------------------------
  // str.join
  // ---------------------------------------------------------------------

  /** Python's `sep.join(xs)`: the elements in order, `sep` between adjacent ones. */
  function Join(sep: string, xs: seq<string>): (r: string)
    ensures |r| == TotalLength(xs) + (if xs == [] then 0 else (|xs| - 1) * |sep|)
  {
    if xs == [] then ""
    else if |xs| == 1 then xs[0]
    else xs[0] + sep + Join(sep, xs[1..])
  }

  /** Index in `Join(sep, xs)` at which `xs[i]` starts. */
  function JoinSlot(sep: string, xs: seq<string>, i: nat): nat
    requires i < |xs|
    decreases i
  {
    if i == 0 then 0 else |xs[0]| + |sep| + JoinSlot(sep, xs[1..], i - 1)
  }

  /** The degenerate cases of `str.join`: nothing for no element, the element alone for one. */
  lemma JoinFew(sep: string, x: string)
    ensures Join(sep, []) == ""
    ensures Join(sep, [x]) == x
  {
  }

  /** The first element starts the text and, when more follow, the separator comes right after it. */
  lemma JoinHead(sep: string, xs: seq<string>)
    requires xs != []
    ensures OccursAt(Join(sep, xs), xs[0], 0)
    ensures |xs| > 1 ==> OccursAt(Join(sep, xs), sep, |xs[0]|)
    ensures |xs| == 1 ==> |xs[0]| == |Join(sep, xs)|
  {
    var r := Join(sep, xs);
    if |xs| > 1 {
      assert r == xs[0] + sep + Join(sep, xs[1..]);
      assert r[0..|xs[0]|] == xs[0];
      assert r[|xs[0]|..|xs[0]| + |sep|] == sep;
    } else {
      assert r[0..|xs[0]|] == r;
    }
  }

  /**
   * Every element appears verbatim at its slot, and the separator follows
   * it exactly when another element comes after; together with the length
   * in Join's contract this pins the whole result down.
   */
  lemma {:induction false} JoinAt(sep: string, xs: seq<string>, i: nat)
    requires i < |xs|
    ensures OccursAt(Join(sep, xs), xs[i], JoinSlot(sep, xs, i))
    ensures i + 1 < |xs| ==> OccursAt(Join(sep, xs), sep, JoinSlot(sep, xs, i) + |xs[i]|)
    ensures i + 1 < |xs| ==> JoinSlot(sep, xs, i + 1) == JoinSlot(sep, xs, i) + |xs[i]| + |sep|
    ensures i + 1 == |xs| ==> JoinSlot(sep, xs, i) + |xs[i]| == |Join(sep, xs)|
    decreases i
  {
    if i == 0 {
      JoinHead(sep, xs);
    } else {
      var front := xs[0] + sep;
      var rest := Join(sep, xs[1..]);
      assert Join(sep, xs) == front + rest;
      JoinAt(sep, xs[1..], i - 1);
      var k := JoinSlot(sep, xs[1..], i - 1);
      OccursShift(front, rest, xs[i], k);
      if i + 1 < |xs| {
        OccursShift(front, rest, sep, k + |xs[i]|);
      }
    }
  }

  /** Appending an element appends the separator and that element. */
  lemma {:induction false} JoinSnoc(sep: string, xs: seq<string>, y: string)
    requires xs != []
    ensures Join(sep, xs + [y]) == Join(sep, xs) + sep + y
    decreases |xs|
  {
    if |xs| == 1 {
      assert xs + [y] == [xs[0], y];
      assert [xs[0], y][1..] == [y];
    } else {
      assert (xs + [y])[1..] == xs[1..] + [y];
      JoinSnoc(sep, xs[1..], y);
    }
  }
}
