/** Small generic helpers shared by every module: an optional value, the
    first-match search that MongoDB's `findOne` performs over a collection in
    natural order, and the counting that `countDocuments` performs. */
module Common {

  /** Document identifiers (ObjectIds) are opaque strings. */
  type Id = string

  datatype Option<+T> = None | Some(value: T) {
    function GetOr(default: T): T {
      match this
      case Some(v) => v
      case None => default
    }
  }

  /** Index of the first element satisfying `p`, if any. */
  function FirstIndex<T>(s: seq<T>, p: T -> bool): (r: Option<nat>)
    ensures r.Some? ==> r.value < |s| && p(s[r.value])
    ensures r.Some? ==> forall j :: 0 <= j < r.value ==> !p(s[j])
    ensures r.None? <==> forall j :: 0 <= j < |s| ==> !p(s[j])
    decreases |s|
  {
    if |s| == 0 then None
    else if p(s[0]) then Some(0)
    else
      match FirstIndex(s[1..], p)
      case None => None
      case Some(i) => Some(i + 1)
  }

  /** A position is the first match when it matches and nothing before it does. */
  lemma {:induction false} FirstIndexAt<T>(s: seq<T>, p: T -> bool, k: nat)
    requires k < |s| && p(s[k])
    requires forall j :: 0 <= j < k ==> !p(s[j])
    ensures FirstIndex(s, p) == Some(k)
  {
    var r := FirstIndex(s, p);
    assert r.Some?;
    assert !(r.value < k) && !(r.value > k);
  }

  /** Number of elements satisfying `p`. */
  function CountWhere<T>(s: seq<T>, p: T -> bool): (n: nat)
    ensures n <= |s|
    ensures n == 0 <==> forall j :: 0 <= j < |s| ==> !p(s[j])
    decreases |s|
  {
    if |s| == 0 then 0
    else (if p(s[0]) then 1 else 0) + CountWhere(s[1..], p)
  }

  /** The elements satisfying `p`, in their original order. */
  function Filter<T(==)>(s: seq<T>, p: T -> bool): (r: seq<T>)
    ensures |r| <= |s|
    ensures forall i :: 0 <= i < |r| ==> p(r[i]) && r[i] in s
    ensures forall i :: 0 <= i < |s| && p(s[i]) ==> s[i] in r
    ensures |r| == 0 <==> forall i :: 0 <= i < |s| ==> !p(s[i])
    decreases |s|
  {
    if |s| == 0 then []
    else (if p(s[0]) then [s[0]] else []) + Filter(s[1..], p)
  }

  /** `[x]` when `p` keeps it, nothing otherwise. */
  function Kept<T>(x: T, p: T -> bool): seq<T> {
    if p(x) then [x] else []
  }

  /** Filtering one value keeps it exactly when `p` holds of it. */
  lemma {:induction false} FilterOne<T>(x: T, p: T -> bool)
    ensures Filter([x], p) == Kept(x, p)
  {
    assert [x][1..] == [];
  }

  /** Filtering five values keeps each in turn. */
  lemma {:induction false} FilterFive<T>(a: T, b: T, c: T, d: T, e: T, p: T -> bool)
    ensures Filter([a, b, c, d, e], p) == Kept(a, p) + Kept(b, p) + Kept(c, p) + Kept(d, p) + Kept(e, p)
  {
    assert [a, b, c, d, e] == [a] + [b] + [c] + [d] + [e];
    FilterOne(a, p); FilterOne(b, p); FilterOne(c, p); FilterOne(d, p); FilterOne(e, p);
    FilterAppend([a], [b], p);
    FilterAppend([a] + [b], [c], p);
    FilterAppend([a] + [b] + [c], [d], p);
    FilterAppend([a] + [b] + [c] + [d], [e], p);
  }

  /** Filtering a concatenation filters each part in turn, so the filter
      keeps the order of the input. */
  lemma {:induction false} FilterAppend<T>(a: seq<T>, b: seq<T>, p: T -> bool)
    ensures Filter(a + b, p) == Filter(a, p) + Filter(b, p)
    decreases |a|
  {
    if |a| == 0 {
      assert a + b == b;
    } else {
      FilterAppend(a[1..], b, p);
      FilterAppendStep(a, b, p);
    }
  }

  /** One step of `FilterAppend`: the claim for `a` follows from the claim
      for `a` without its first element. */
  lemma {:induction false} FilterAppendStep<T>(a: seq<T>, b: seq<T>, p: T -> bool)
    requires |a| > 0
    requires Filter(a[1..] + b, p) == Filter(a[1..], p) + Filter(b, p)
    ensures Filter(a + b, p) == Filter(a, p) + Filter(b, p)
  {
    DropFirstOfAppend(a, b);
    FilterFront(a + b, p);
    FilterFront(a, p);
    AppendAssoc(Kept(a[0], p), Filter(a[1..], p), Filter(b, p));
  }

  /** A non-empty sequence is filtered by deciding on its first element. */
  lemma {:induction false} FilterFront<T>(s: seq<T>, p: T -> bool)
    requires |s| > 0
    ensures Filter(s, p) == Kept(s[0], p) + Filter(s[1..], p)
  {
  }

  lemma {:induction false} DropFirstOfAppend<T>(a: seq<T>, b: seq<T>)
    requires |a| > 0
    ensures (a + b)[0] == a[0] && (a + b)[1..] == a[1..] + b
  {
  }

  lemma {:induction false} AppendAssoc<T>(x: seq<T>, y: seq<T>, z: seq<T>)
    ensures x + (y + z) == (x + y) + z
  {
  }

  /** Removes every occurrence of `x` (MongoDB's `$pull` of one value). */
  function RemoveAll<T(==)>(s: seq<T>, x: T): (r: seq<T>)
    ensures x !in r
    ensures forall i :: 0 <= i < |r| ==> r[i] in s
    ensures forall i :: 0 <= i < |s| && s[i] != x ==> s[i] in r
    decreases |s|
  {
    if |s| == 0 then []
    else (if s[0] == x then [] else [s[0]]) + RemoveAll(s[1..], x)
  }

  /** Removing a value that is not there changes nothing, and a copy of it
      pushed in front is removed along with the rest. */
  lemma {:induction false} RemoveAllAbsent<T>(s: seq<T>, x: T)
    requires x !in s
    ensures RemoveAll(s, x) == s
    ensures RemoveAll([x] + s, x) == s
    decreases |s|
  {
    assert ([x] + s)[1..] == s;
    if |s| > 0 {
      assert x !in s[1..];
      RemoveAllAbsent(s[1..], x);
      assert [s[0]] + s[1..] == s;
    }
  }

  /** The window `[start, start + size)` of `s`, cut short at its end
      (a `$skip` followed by a `$limit`). */
  function Window<T>(s: seq<T>, start: nat, size: nat): (w: seq<T>)
    ensures |w| <= size
    ensures start >= |s| ==> w == []
    ensures start < |s| ==> |w| == (if start + size <= |s| then size else |s| - start)
    ensures forall i :: 0 <= i < |w| ==> start + i < |s| && w[i] == s[start + i]
  {
    if start >= |s| then []
    else s[start..if start + size <= |s| then start + size else |s|]
  }

  /** The sequence without position `i`. */
  function RemoveAt<T>(s: seq<T>, i: nat): (r: seq<T>)
    requires i < |s|
    ensures |r| == |s| - 1
    ensures forall j :: 0 <= j < i ==> r[j] == s[j]
    ensures forall j :: i <= j < |r| ==> r[j] == s[j + 1]
  {
    s[..i] + s[i + 1..]
  }
}
