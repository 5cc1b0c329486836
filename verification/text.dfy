/** String operations the backend relies on: JavaScript's `split` with a
    one-character separator, `startsWith`, and the global literal
    replacement performed by `replace(new RegExp(p, "g"), v)`. */
module Text {

  predicate StartsWith(s: string, prefix: string) {
    |prefix| <= |s| && s[..|prefix|] == prefix
  }

  predicate EndsWith(s: string, suffix: string) {
    |suffix| <= |s| && s[|s| - |suffix|..] == suffix
  }

  /** True when `pat` occurs in `s` starting at position `i`. */
  predicate OccursAt(s: string, pat: string, i: nat) {
    i + |pat| <= |s| && s[i..i + |pat|] == pat
  }

  predicate Contains(s: string, pat: string) {
    exists i: nat :: i <= |s| && OccursAt(s, pat, i)
  }

  /** `s.split(sep)` for a one-character separator: the maximal
      separator-free pieces between the separators, always at least one. */
  function Split(s: string, sep: char): (parts: seq<string>)
    ensures |parts| >= 1
    ensures forall i :: 0 <= i < |parts| ==> sep !in parts[i]
    ensures sep !in s ==> parts == [s]
    decreases |s|
  {
    if |s| == 0 then [""]
    else
      var rest := Split(s[1..], sep);
      assert s == [s[0]] + s[1..];
      assert sep !in s ==> sep !in s[1..];
      if s[0] == sep then [""] + rest
      else [[s[0]] + rest[0]] + rest[1..]
  }

  /** `parts.join(sep)`. */
  function Join(parts: seq<string>, sep: char): string
    requires |parts| >= 1
    decreases |parts|
  {
    if |parts| == 1 then parts[0]
    else parts[0] + [sep] + Join(parts[1..], sep)
  }

  /** Splitting and re-joining gives back the original string. */
  lemma {:induction false} JoinSplit(s: string, sep: char)
    ensures Join(Split(s, sep), sep) == s
    decreases |s|
  {
    if |s| == 0 {
    } else {
      var rest := Split(s[1..], sep);
      JoinSplit(s[1..], sep);
      assert s == [s[0]] + s[1..];
      if s[0] == sep {
        assert Split(s, sep) == [""] + rest;
        JoinEmptyHead(rest, sep);
      } else {
        assert Split(s, sep) == [[s[0]] + rest[0]] + rest[1..];
        JoinGrowHead(s[0], rest, sep);
      }
    }
  }

  /** An empty first piece contributes only its separator. */
  lemma {:induction false} JoinEmptyHead(parts: seq<string>, sep: char)
    requires |parts| >= 1
    ensures Join([""] + parts, sep) == [sep] + Join(parts, sep)
  {
    assert ([""] + parts)[1..] == parts;
  }

  /** Prefixing the first piece with a character prefixes the joined string. */
  lemma {:induction false} JoinGrowHead(c: char, parts: seq<string>, sep: char)
    requires |parts| >= 1
    ensures Join([[c] + parts[0]] + parts[1..], sep) == [c] + Join(parts, sep)
  {
    var grown := [[c] + parts[0]] + parts[1..];
    if |parts| > 1 {
      assert grown[1..] == parts[1..];
    }
  }

  /** Joining separator-free pieces and splitting again gives back the pieces. */
  lemma {:induction false} SplitJoin(parts: seq<string>, sep: char)
    requires |parts| >= 1
    requires forall i :: 0 <= i < |parts| ==> sep !in parts[i]
    ensures Split(Join(parts, sep), sep) == parts
    decreases |parts|
  {
    if |parts| == 1 {
      assert sep !in parts[0];
    } else {
      SplitJoin(parts[1..], sep);
      SplitPrefix(parts[0], Join(parts[1..], sep), sep);
    }
  }

  /** Splitting `a + [sep] + b` when `a` holds no separator. */
  lemma {:induction false} SplitPrefix(a: string, b: string, sep: char)
    requires sep !in a
    ensures Split(a + [sep] + b, sep) == [a] + Split(b, sep)
    decreases |a|
  {
    if |a| == 0 {
      assert a + [sep] + b == [sep] + b;
      assert ([sep] + b)[1..] == b;
    } else {
      var s := a + [sep] + b;
      assert s[0] == a[0];
      assert s[1..] == a[1..] + [sep] + b;
      SplitPrefix(a[1..], b, sep);
      assert [a[0]] + a[1..] == a;
    }
  }

  /** The last piece of `s.split(sep)`: what `.pop()` returns after a split. */
  function LastSegment(s: string, sep: char): (r: string)
    ensures sep !in r
    ensures sep !in s ==> r == s
    decreases |s|
  {
    if sep !in s then s
    else
      assert s == [s[0]] + s[1..];
      LastSegment(s[1..], sep)
  }

  /** The last piece ends the string, right after the last separator when
      there is one. */
  lemma {:induction false} LastSegmentSuffix(s: string, sep: char)
    ensures EndsWith(s, LastSegment(s, sep))
    ensures sep in s ==> EndsWith(s, [sep] + LastSegment(s, sep))
    decreases |s|
  {
    if sep in s {
      var t := s[1..];
      assert s == [s[0]] + t;
      var r := LastSegment(s, sep);
      assert r == LastSegment(t, sep);
      if sep in t {
        LastSegmentSuffix(t, sep);
        EndsWithTail(s, r);
        EndsWithTail(s, [sep] + r);
      } else {
        assert r == t && s[0] == sep;
        assert [sep] + r == s;
        assert s[|s| - |s|..] == s;
        EndsWithTail(s, r);
      }
    }
  }

  /** A suffix of the tail is a suffix of the whole. */
  lemma {:induction false} EndsWithTail(s: string, x: string)
    requires |s| > 0 && EndsWith(s[1..], x)
    ensures EndsWith(s, x)
  {
    assert s[|s| - |x|..] == s[1..][|s| - 1 - |x|..];
  }

  /** A string holding the separator splits into at least two pieces. */
  lemma {:induction false} SplitAtLeastTwo(s: string, sep: char)
    requires sep in s
    ensures |Split(s, sep)| >= 2
    decreases |s|
  {
    if s[0] != sep {
      assert s == [s[0]] + s[1..];
      SplitAtLeastTwo(s[1..], sep);
    }
  }

  /** `LastSegment` is indeed the last element of `Split`. */
  lemma {:induction false} LastSegmentIsLastPiece(s: string, sep: char)
    ensures var parts := Split(s, sep); LastSegment(s, sep) == parts[|parts| - 1]
    decreases |s|
  {
    if sep in s {
      assert s == [s[0]] + s[1..];
      var rest := Split(s[1..], sep);
      LastSegmentIsLastPiece(s[1..], sep);
      if s[0] != sep {
        SplitAtLeastTwo(s[1..], sep);
      }
    }
  }

  /** Left-to-right replacement of every non-overlapping occurrence of `pat`. */
  function ReplaceAll(s: string, pat: string, rep: string): string
    requires |pat| > 0
    decreases |s|
  {
    if |s| < |pat| then s
    else if s[..|pat|] == pat then rep + ReplaceAll(s[|pat|..], pat, rep)
    else [s[0]] + ReplaceAll(s[1..], pat, rep)
  }

  /** Text in which `pat` does not occur is left unchanged. */
  lemma {:induction false} ReplaceAllAbsent(s: string, pat: string, rep: string)
    requires |pat| > 0
    requires !Contains(s, pat)
    ensures ReplaceAll(s, pat, rep) == s
    decreases |s|
  {
    if |s| >= |pat| {
      assert !OccursAt(s, pat, 0);
      assert s[0..|pat|] == s[..|pat|];
      forall i: nat | i <= |s[1..]|
        ensures OccursAt(s[1..], pat, i) ==> OccursAt(s, pat, i + 1)
      {
        if i + |pat| <= |s[1..]| {
          assert s[1..][i..i + |pat|] == s[i + 1..i + 1 + |pat|];
        }
      }
      assert !Contains(s[1..], pat);
      ReplaceAllAbsent(s[1..], pat, rep);
      assert s == [s[0]] + s[1..];
    }
  }

  /** A prefix at none of whose positions `pat` starts passes through unchanged. */
  lemma {:induction false} ReplaceAllSkip(h: string, x: string, pat: string, rep: string)
    requires |pat| > 0
    requires forall i :: 0 <= i < |h| ==> !StartsWith((h + x)[i..], pat)
    ensures ReplaceAll(h + x, pat, rep) == h + ReplaceAll(x, pat, rep)
    decreases |h|
  {
    if |h| > 0 {
      var s := h + x;
      assert s[0..] == s;
      forall i | 0 <= i < |h[1..]|
        ensures !StartsWith((h[1..] + x)[i..], pat)
      {
        assert (h[1..] + x)[i..] == s[i + 1..];
      }
      ReplaceAllSkip(h[1..], x, pat, rep);
      assert s == [h[0]] + (h[1..] + x);
      ReplaceAllStep(h[0], h[1..] + x, pat, rep);
      assert h == [h[0]] + h[1..];
      assert [h[0]] + (h[1..] + ReplaceAll(x, pat, rep)) == h + ReplaceAll(x, pat, rep);
    } else {
      assert h + x == x;
    }
  }

  /** A first character at which `pat` does not start is kept as it is. */
  lemma {:induction false} ReplaceAllStep(c: char, t: string, pat: string, rep: string)
    requires |pat| > 0
    requires !StartsWith([c] + t, pat)
    ensures ReplaceAll([c] + t, pat, rep) == [c] + ReplaceAll(t, pat, rep)
  {
    var s := [c] + t;
    assert s[1..] == t;
    if |s| < |pat| {
      assert ReplaceAll(t, pat, rep) == t;
    }
  }

  /** An occurrence at the very start is replaced and scanning continues after it. */
  lemma {:induction false} ReplaceAllHead(x: string, pat: string, rep: string)
    requires |pat| > 0
    ensures ReplaceAll(pat + x, pat, rep) == rep + ReplaceAll(x, pat, rep)
  {
    var s := pat + x;
    assert s[..|pat|] == pat;
    assert s[|pat|..] == x;
  }
}
