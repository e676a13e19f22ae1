/** The part of Go's `strings` package that the merge-request link parser relies on:
    `strings.Index` and `strings.Split` with a non-empty separator (every call in
    main.go passes a non-empty one), with `strings.Join` as the inverse of `Split`
    and a character-by-character `TakeUntil` as an independent reading of
    "the text before the first occurrence of a character". */
module GoStrings {

  /** `sep` occurs in `s` starting at position `i`. */
  predicate OccursAt(s: string, sep: string, i: nat) {
    i + |sep| <= |s| && s[i..i + |sep|] == sep
  }

  /** `strings.Contains(s, sep)`. */
  predicate Occurs(s: string, sep: string) {
    exists i: nat | i <= |s| :: OccursAt(s, sep, i)
  }

  /** No occurrence of `sep` in `x + sep + ...` starts before position `|x|`:
      `x` holds no occurrence, and none straddles the boundary into `sep`. */
  predicate NoEarlierOccurrence(x: string, sep: string)
    requires |sep| > 0
  {
    !Occurs(x + sep[..|sep| - 1], sep)
  }

  /** `strings.Index(s, sep)`: the first position at which `sep` occurs in `s`,
      or -1 when it does not occur (`IndexFirst` proves that reading). */
  function Index(s: string, sep: string): (r: int)
    requires |sep| > 0
    ensures r == -1 || 0 <= r <= |s| - |sep|
    decreases |s|
  {
    if |s| < |sep| then -1
    else if s[..|sep|] == sep then 0
    else
      var k := Index(s[1..], sep);
      if k < 0 then -1 else k + 1
  }

  /** `Index` finds an occurrence exactly when there is one, and finds the first. */
  lemma {:induction false} IndexFirst(s: string, sep: string)
    requires |sep| > 0
    ensures Index(s, sep) == -1 <==> !Occurs(s, sep)
    ensures Index(s, sep) >= 0 ==> OccursAt(s, sep, Index(s, sep))
    ensures forall j: nat :: j < Index(s, sep) ==> !OccursAt(s, sep, j)
    decreases |s|
  {
    if |s| < |sep| {
    } else if s[..|sep|] == sep {
      assert OccursAt(s, sep, 0);
    } else {
      IndexFirst(s[1..], sep);
      OccursAtShift(s, sep);
    }
  }

  /** An occurrence in `s` past position 0 is an occurrence in `s[1..]`, one
      position earlier. */
  lemma OccursAtShift(s: string, sep: string)
    requires |s| > 0
    ensures forall i: nat :: 0 < i ==> (OccursAt(s, sep, i) <==> OccursAt(s[1..], sep, i - 1))
    ensures forall j: nat :: OccursAt(s[1..], sep, j) ==> OccursAt(s, sep, j + 1)
  {
    forall j: nat
      ensures OccursAt(s, sep, j + 1) <==> OccursAt(s[1..], sep, j)
    {
      if j + 1 + |sep| <= |s| {
        assert s[1..][j..j + |sep|] == s[j + 1..j + 1 + |sep|];
      }
    }
  }

  /** `strings.Split(s, sep)`: the pieces of `s` between successive
      non-overlapping occurrences of `sep`, scanning from the left. There is
      always a first piece. */
  function Split(s: string, sep: string): (pieces: seq<string>)
    requires |sep| > 0
    ensures |pieces| >= 1
    decreases |s|
  {
    var m := Index(s, sep);
    if m < 0 then [s] else [s[..m]] + Split(s[m + |sep|..], sep)
  }

  /** `strings.Join(pieces, sep)`. */
  function Join(pieces: seq<string>, sep: string): string
  {
    if |pieces| == 0 then ""
    else if |pieces| == 1 then pieces[0]
    else pieces[0] + sep + Join(pieces[1..], sep)
  }

  /** The text of `t` before the first `c`, or all of `t` when `c` does not occur. */
  function TakeUntil(t: string, c: char): (r: string)
    ensures c !in r
    ensures r <= t
    ensures |r| < |t| ==> t[|r|] == c
  {
    if t == [] || t[0] == c then [] else [t[0]] + TakeUntil(t[1..], c)
  }

  /** A split has more than one piece exactly when the separator occurs. */
  lemma SplitSeveral(s: string, sep: string)
    requires |sep| > 0
    ensures |Split(s, sep)| >= 2 <==> Occurs(s, sep)
  {
    IndexFirst(s, sep);
  }

  /** Splitting and joining again gives back the original text. */
  lemma {:induction false} JoinSplit(s: string, sep: string)
    requires |sep| > 0
    ensures Join(Split(s, sep), sep) == s
    decreases |s|
  {
    var m := Index(s, sep);
    if m >= 0 {
      var rest := s[m + |sep|..];
      var pieces := Split(s, sep);
      assert pieces == [s[..m]] + Split(rest, sep);
      assert pieces[1..] == Split(rest, sep);
      JoinSplit(rest, sep);
      IndexFirst(s, sep);
      assert s == s[..m] + sep + rest;
    }
  }

  /** The text before the first occurrence of the separator does not contain it. */
  lemma HeadFree(s: string, sep: string)
    requires |sep| > 0
    requires Index(s, sep) >= 0
    ensures !Occurs(s[..Index(s, sep)], sep)
  {
    var m := Index(s, sep);
    var head := s[..m];
    IndexFirst(s, sep);
    forall j: nat | j <= |head|
      ensures !OccursAt(head, sep, j)
    {
      if OccursAt(head, sep, j) {
        assert head[j..j + |sep|] == s[j..j + |sep|];
        assert OccursAt(s, sep, j);
      }
    }
  }

  /** No piece of a split contains the separator. */
  lemma {:induction false} SplitPiecesFree(s: string, sep: string, k: nat)
    requires |sep| > 0
    requires k < |Split(s, sep)|
    ensures !Occurs(Split(s, sep)[k], sep)
    decreases |s|
  {
    var m := Index(s, sep);
    IndexFirst(s, sep);
    if m >= 0 {
      var rest := s[m + |sep|..];
      assert Split(s, sep) == [s[..m]] + Split(rest, sep);
      if k == 0 {
        HeadFree(s, sep);
      } else {
        SplitPiecesFree(rest, sep, k - 1);
      }
    }
  }

  /** When the first occurrence of `sep` in `x + sep + rest` is the one right
      after `x`, `Index` finds it there. */
  lemma IndexAfter(x: string, sep: string, rest: string)
    requires |sep| > 0
    requires NoEarlierOccurrence(x, sep)
    ensures Index(x + sep + rest, sep) == |x|
  {
    var s := x + sep + rest;
    var y := x + sep[..|sep| - 1];
    assert s[|x|..|x| + |sep|] == sep;
    assert OccursAt(s, sep, |x|);
    var r := Index(s, sep);
    IndexFirst(s, sep);
    if r < |x| {
      assert OccursAt(s, sep, r);
      forall k | r <= k < r + |sep|
        ensures s[k] == y[k]
      {
        if k >= |x| {
          assert s[k] == sep[k - |x|];
          assert y[k] == sep[..|sep| - 1][k - |x|];
        }
      }
      assert s[r..r + |sep|] == y[r..r + |sep|];
      assert OccursAt(y, sep, r);
      assert false;
    }
  }

  /** Splitting `x + sep + rest` where the first separator follows `x`. */
  lemma SplitAfter(x: string, sep: string, rest: string)
    requires |sep| > 0
    requires NoEarlierOccurrence(x, sep)
    ensures Split(x + sep + rest, sep) == [x] + Split(rest, sep)
  {
    var s := x + sep + rest;
    IndexAfter(x, sep, rest);
    assert s[..|x|] == x;
    assert s[|x| + |sep|..] == rest;
  }

  /** A character that stands in `sep` at position `k`, and neither in `x` nor
      earlier in `sep`, keeps any occurrence of `sep` from starting inside `x`. */
  lemma MarkCharNoEarlier(x: string, sep: string, k: nat)
    requires k < |sep|
    requires sep[k] !in x && sep[k] !in sep[..k]
    ensures NoEarlierOccurrence(x, sep)
  {
    var y := x + sep[..|sep| - 1];
    forall i: nat | i <= |y|
      ensures !OccursAt(y, sep, i)
    {
    }
  }

  /** Text free of the separator splits into a single piece. */
  lemma SplitFree(s: string, sep: string)
    requires |sep| > 0
    requires !Occurs(s, sep)
    ensures Split(s, sep) == [s]
  {
    IndexFirst(s, sep);
  }

  /** Text shorter than the separator cannot contain it. */
  lemma ShortFree(s: string, sep: string)
    requires |s| < |sep|
    ensures !Occurs(s, sep)
  {
  }

  /** The first piece of splitting on one character is the text before that
      character. */
  lemma {:induction false} SplitCharFirst(t: string, c: char)
    ensures Split(t, [c])[0] == TakeUntil(t, c)
  {
    var m := Index(t, [c]);
    var u := TakeUntil(t, c);
    IndexFirst(t, [c]);
    if m < 0 {
      if |u| < |t| {
        assert OccursAt(t, [c], |u|);
      }
    } else {
      assert t[m..m + 1] == [c];
      if |u| < m {
        assert t[|u|..|u| + 1] == [c];
        assert OccursAt(t, [c], |u|);
      }
      assert |u| == m;
      assert u == t[..m];
    }
  }

  /** Cutting `t` at a position that holds `c` (or at its end) does not change
      the text before the first `c`. */
  lemma {:induction false} TakeUntilCut(t: string, c: char, m: nat)
    requires m <= |t|
    requires m == |t| || t[m] == c
    ensures TakeUntil(t[..m], c) == TakeUntil(t, c)
  {
    if m == |t| {
      assert t[..m] == t;
    } else if m > 0 && t[0] != c {
      assert t[..m][1..] == t[1..][..m - 1];
      TakeUntilCut(t[1..], c, m - 1);
    }
  }
}
