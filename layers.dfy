/**
 * The drawing surface's object list, back to front, and the four list
 * operations the editor uses on it: remove, add, send to back and bring to
 * front. A layer's identity is its `id`: every decoded picture is a new
 * object, distinct from every earlier one even when their dimensions agree.
 */
module Layers {

  datatype Option<T> = None | Some(value: T)

  /** A decoded picture, known to the editor only by its pixel dimensions. */
  datatype Raster = Raster(width: nat, height: nat)

  /** The two roles a layer can play: the photo behind, the signature over it. */
  datatype Kind = Base | Signature

  /**
   * A picture placed on the surface: its top-left corner at (`left`, `top`)
   * and the same `scale` horizontally and vertically.
   */
  datatype Layer = Layer(id: nat, kind: Kind, left: real, top: real, scale: real,
                         sourceWidth: nat, sourceHeight: nat)

  /** Deletes the first occurrence of `x`; a list without `x` is left alone. */
  function Remove(s: seq<Layer>, x: Layer): (r: seq<Layer>)
    ensures x !in s ==> r == s
    ensures x in s ==> |r| == |s| - 1
    ensures forall y :: y in r ==> y in s
    ensures forall y :: y in s && y != x ==> y in r
  {
    if s == [] then []
    else if s[0] == x then s[1..]
    else [s[0]] + Remove(s[1..], x)
  }

  /** `Remove` takes away exactly one copy of `x` when there is one, and nothing else. */
  lemma {:induction false} RemoveOneCopy(s: seq<Layer>, x: Layer)
    ensures multiset(Remove(s, x)) == multiset(s) - multiset{x}
  {
    if s != [] {
      assert s == [s[0]] + s[1..];
      RemoveOneCopy(s[1..], x);
    }
  }

  /**
   * The occurrence `Remove` deletes is the first one: the layers before it
   * and the layers after it stay, in their order.
   */
  lemma {:induction false} RemoveFirstOccurrence(s: seq<Layer>, x: Layer, i: nat)
    requires i < |s| && s[i] == x && x !in s[..i]
    ensures Remove(s, x) == s[..i] + s[i + 1..]
  {
    if i == 0 {
      assert s[..0] + s[1..] == s[1..];
    } else {
      var t := s[1..];
      assert s[..i] == [s[0]] + t[..i - 1];
      RemoveFirstOccurrence(t, x, i - 1);
      calc {
        Remove(s, x);
        [s[0]] + Remove(t, x);
        [s[0]] + (t[..i - 1] + t[i..]);
        { assert s[i + 1..] == t[i..]; }
        s[..i] + s[i + 1..];
      }
    }
  }

  /** `canvas.remove` applied to a reference that may be a placeholder. */
  function RemoveRef(s: seq<Layer>, ref: Option<Layer>): (r: seq<Layer>)
    ensures ref.None? || ref.value !in s ==> r == s
    ensures ref.Some? && ref.value in s ==> |r| == |s| - 1
    ensures ref.Some? ==> r == Remove(s, ref.value)
  {
    match ref
    case None => s
    case Some(x) => Remove(s, x)
  }

  /** Appends `x` in front of everything. */
  function Add(s: seq<Layer>, x: Layer): (r: seq<Layer>)
    ensures |r| == |s| + 1 && r[..|s|] == s && r[|s|] == x
  {
    s + [x]
  }

  /** Moves `x` to index 0 (the back), keeping the order of the others. */
  function SendToBack(s: seq<Layer>, x: Layer): (r: seq<Layer>)
    ensures |r| > 0 && r[0] == x
    ensures |r| == if x in s then |s| else |s| + 1
    ensures forall y :: y in r <==> y in s || y == x
    ensures r[1..] == Remove(s, x)
  {
    [x] + Remove(s, x)
  }

  /** Moves `x` to the last index (the front), keeping the order of the others. */
  function BringToFront(s: seq<Layer>, x: Layer): (r: seq<Layer>)
    ensures |r| > 0 && r[|r| - 1] == x
    ensures |r| == if x in s then |s| else |s| + 1
    ensures forall y :: y in r <==> y in s || y == x
  {
    Remove(s, x) + [x]
  }

  /** Bringing `x` to the front leaves the other layers behind it in their order. */
  lemma BringToFrontKeepsOthers(s: seq<Layer>, x: Layer)
    ensures BringToFront(s, x)[..|BringToFront(s, x)| - 1] == Remove(s, x)
  {
    var r := Remove(s, x);
    assert (r + [x])[..|r|] == r;
  }

  /** The layers of `s` that are not of kind `k`, in order. */
  function WithoutKind(s: seq<Layer>, k: Kind): (r: seq<Layer>)
    ensures forall i :: 0 <= i < |r| ==> r[i].kind != k
    ensures forall y :: y in s && y.kind != k ==> y in r
    ensures forall y :: y in r ==> y in s
  {
    if s == [] then []
    else if s[0].kind == k then WithoutKind(s[1..], k)
    else [s[0]] + WithoutKind(s[1..], k)
  }

  /**
   * The layers filtered out are exactly those of kind `k`: together with
   * `OfKind` the filter accounts for every copy of every layer.
   */
  lemma {:induction false} WithoutKindSplits(s: seq<Layer>, k: Kind)
    ensures multiset(WithoutKind(s, k)) + multiset(OfKind(s, k)) == multiset(s)
  {
    if s != [] {
      assert s == [s[0]] + s[1..];
      WithoutKindSplits(s[1..], k);
    }
  }

  /**
   * Filtering a list split in two filters each part and keeps the parts in
   * their order; with `WithoutKindOfOne` this pins the filter down: every
   * kept layer stays where it was relative to the others.
   */
  lemma {:induction false} WithoutKindOfConcat(a: seq<Layer>, b: seq<Layer>, k: Kind)
    ensures WithoutKind(a + b, k) == WithoutKind(a, k) + WithoutKind(b, k)
  {
    if a == [] {
      assert a + b == b;
    } else {
      HeadTailOfConcat(a, b);
      WithoutKindOfConcat(a[1..], b, k);
    }
  }

  /** The head and tail of `a + b` for a non-empty `a`. */
  lemma HeadTailOfConcat(a: seq<Layer>, b: seq<Layer>)
    requires a != []
    ensures (a + b)[0] == a[0] && (a + b)[1..] == a[1..] + b
  {
  }

  /** A single layer is dropped when it has kind `k` and kept otherwise. */
  lemma WithoutKindOfOne(y: Layer, k: Kind)
    ensures WithoutKind([y], k) == if y.kind == k then [] else [y]
  {
    assert [y][1..] == [];
  }

  /** The layers of `s` that are of kind `k`, in order. */
  function OfKind(s: seq<Layer>, k: Kind): seq<Layer>
  {
    if s == [] then []
    else if s[0].kind == k then [s[0]] + OfKind(s[1..], k)
    else OfKind(s[1..], k)
  }

  /**
   * The stacking order the editor keeps: a photo layer only at the back,
   * a signature layer only at the front.
   */
  ghost predicate Stacked(s: seq<Layer>) {
    forall i :: 0 <= i < |s| ==>
      (s[i].kind == Base ==> i == 0) && (s[i].kind == Signature ==> i == |s| - 1)
  }

  /** A stacked list holds at most two layers: when two, the photo behind the signature. */
  lemma StackedIsShort(s: seq<Layer>)
    requires Stacked(s)
    ensures |s| <= 2
    ensures |s| == 2 ==> s[0].kind == Base && s[1].kind == Signature
  {
    if |s| >= 2 {
      assert s[1].kind != Base;
    }
  }

  /** A stacked list holds at most one photo layer and at most one signature layer. */
  lemma StackedAtMostOneEach(s: seq<Layer>)
    requires Stacked(s)
    ensures |OfKind(s, Base)| <= 1 && |OfKind(s, Signature)| <= 1
  {
    StackedIsShort(s);
    if |s| == 2 {
      assert s[1..][0] == s[1] && s[1..][1..] == [];
      assert OfKind(s[1..], Base) == [] && OfKind(s[1..], Signature) == [s[1]];
    } else if |s| == 1 {
      assert s[1..] == [];
    }
  }

  /**
   * Removing the one layer of kind `x.kind` that a list may hold, when it
   * can only be `x` and only at the end, leaves exactly the other layers.
   */
  lemma {:induction false} RemoveOnlyOfKind(s: seq<Layer>, x: Layer)
    requires forall i :: 0 <= i < |s| && s[i].kind == x.kind ==> i == |s| - 1 && s[i] == x
    ensures Remove(s, x) == WithoutKind(s, x.kind)
  {
    if s != [] {
      if s[0].kind == x.kind {
        assert s == [x];
        assert s[1..] == [];
      } else {
        var t := s[1..];
        forall i | 0 <= i < |t| && t[i].kind == x.kind
          ensures i == |t| - 1 && t[i] == x
        {
          assert s[i + 1] == t[i];
        }
        RemoveOnlyOfKind(t, x);
      }
    }
  }

  /** Taking back a layer that was just appended restores the list. */
  lemma {:induction false} RemoveJustAdded(s: seq<Layer>, x: Layer)
    requires x !in s
    ensures Remove(s + [x], x) == s
  {
    if s != [] {
      assert (s + [x])[1..] == s[1..] + [x];
      RemoveJustAdded(s[1..], x);
    }
  }
}
