/** The three PHP string primitives the deny-name decoder uses: `str_replace` with one
    search string, ASCII `strtolower`, and `explode`/`implode` on a separator. */
module Strings {

  /** True when `pat` occurs in `s` starting at index `i`. */
  predicate OccursAt(s: string, pat: string, i: int) {
    0 <= i && i + |pat| <= |s| && s[i..i + |pat|] == pat
  }

  /** True when `s` begins with `pat`, compared character by character. */
  predicate StartsWith(s: string, pat: string)
    decreases |pat|
  {
    |pat| == 0 || (|s| > 0 && s[0] == pat[0] && StartsWith(s[1..], pat[1..]))
  }

  /** True when `pat` occurs anywhere in `s`. */
  predicate Contains(s: string, pat: string)
    decreases |s|
  {
    StartsWith(s, pat) || (|s| > 0 && Contains(s[1..], pat))
  }

  lemma {:induction false} StartsWithOccurs(s: string, pat: string)
    ensures StartsWith(s, pat) <==> OccursAt(s, pat, 0)
    decreases |pat|
  {
    if |pat| > 0 && |s| > 0 {
      StartsWithOccurs(s[1..], pat[1..]);
      if |pat| <= |s| {
        assert s[..|pat|] == [s[0]] + s[1..][..|pat| - 1];
        assert pat == [pat[0]] + pat[1..];
      }
    }
  }

  /** The scan `Contains` finds exactly the occurrences `OccursAt` describes. */
  lemma {:induction false} ContainsOccurs(s: string, pat: string)
    ensures Contains(s, pat) <==> exists i :: OccursAt(s, pat, i)
    decreases |s|
  {
    StartsWithOccurs(s, pat);
    if |s| > 0 {
      ContainsOccurs(s[1..], pat);
      if exists i :: OccursAt(s, pat, i) {
        var i :| OccursAt(s, pat, i);
        if i > 0 {
          OccursShift(s, pat, 1, i - 1);
        }
      }
      if exists i :: OccursAt(s[1..], pat, i) {
        var i :| OccursAt(s[1..], pat, i);
        OccursShift(s, pat, 1, i);
      }
    } else {
      forall i ensures !OccursAt(s, pat, i) || i == 0 {
      }
    }
  }

  /** No occurrence of `pat` in `x + y` starts inside `x` and runs on into `y`. */
  ghost predicate NoStraddle(x: string, pat: string, y: string) {
    forall i :: |x| - |pat| < i < |x| ==> !OccursAt(x + y, pat, i)
  }

  /** Dropping a prefix of length `k` shifts every occurrence left by `k`. */
  lemma OccursShift(s: string, pat: string, k: nat, i: nat)
    requires k <= |s|
    ensures OccursAt(s[k..], pat, i) <==> OccursAt(s, pat, i + k)
  {
    if i + |pat| <= |s[k..]| {
      assert s[k..][i..i + |pat|] == s[i + k..i + k + |pat|];
    }
  }

  /** One differing character rules out an occurrence. */
  lemma MismatchAt(s: string, pat: string, i: int, j: int)
    requires 0 <= i && 0 <= j < |pat| && i + j < |s| && s[i + j] != pat[j]
    ensures !OccursAt(s, pat, i)
  {
    if i + |pat| <= |s| {
      assert s[i..i + |pat|][j] == s[i + j];
    }
  }

  /** No occurrence straddles the seam before `z` when the first character of `z` is
      none of the characters after the first in `pat`. */
  lemma NoStraddleAtSeam(x: string, pat: string, z: string)
    requires |z| > 0
    requires forall j :: 0 < j < |pat| ==> pat[j] != z[0]
    ensures NoStraddle(x, pat, z)
  {
    forall i | |x| - |pat| < i < |x|
      ensures !OccursAt(x + z, pat, i)
    {
      if 0 <= i {
        MismatchAt(x + z, pat, i, |x| - i);
      }
    }
  }

  /** NoStraddle survives dropping `k` characters of the left part. */
  lemma NoStraddleShift(x: string, pat: string, y: string, k: nat)
    requires k <= |x|
    requires NoStraddle(x, pat, y)
    ensures NoStraddle(x[k..], pat, y)
  {
    forall i | |x[k..]| - |pat| < i < |x[k..]|
      ensures !OccursAt(x[k..] + y, pat, i)
    {
      if 0 <= i {
        assert (x + y)[k..] == x[k..] + y;
        OccursShift(x + y, pat, k, i);
      }
    }
  }

  // ---------------------------------------------------------------- str_replace

  /** PHP `str_replace(pat, rep, s)` for one non-empty search string: a left-to-right
      scan that replaces every non-overlapping occurrence of `pat` by `rep`. */
  function Replace(s: string, pat: string, rep: string): string
    requires |pat| > 0
    decreases |s|
  {
    if s == [] then []
    else if StartsWith(s, pat) then
      StartsWithOccurs(s, pat);
      rep + Replace(s[|pat|..], pat, rep)
    else [s[0]] + Replace(s[1..], pat, rep)
  }

  /** A string without the search string is returned unchanged. */
  lemma {:induction false} ReplaceAbsent(s: string, pat: string, rep: string)
    requires |pat| > 0
    requires !Contains(s, pat)
    ensures Replace(s, pat, rep) == s
    decreases |s|
  {
    if s != [] {
      StartsWithOccurs(s, pat);
      ReplaceAbsent(s[1..], pat, rep);
      assert s == [s[0]] + s[1..];
    }
  }

  /** When the only occurrence of the search string in `stem + pat` is the final one,
      replacing gives `stem + rep`. */
  lemma {:induction false} ReplaceSuffix(stem: string, pat: string, rep: string)
    requires |pat| > 0
    requires forall k :: 0 <= k < |stem| ==> !OccursAt(stem + pat, pat, k)
    ensures Replace(stem + pat, pat, rep) == stem + rep
    decreases |stem|
  {
    StartsWithOccurs(stem + pat, pat);
    if stem == [] {
      assert stem + pat == pat;
      assert pat[|pat|..] == [];
    } else {
      assert (stem + pat)[1..] == stem[1..] + pat;
      forall k | 0 <= k < |stem[1..]| ensures !OccursAt(stem[1..] + pat, pat, k) {
        OccursShift(stem + pat, pat, 1, k);
      }
      ReplaceSuffix(stem[1..], pat, rep);
      assert stem == [stem[0]] + stem[1..];
    }
  }

  /** Replacement distributes over a concatenation that no occurrence straddles. */
  lemma {:induction false} ReplaceConcat(x: string, y: string, pat: string, rep: string)
    requires |pat| > 0
    requires NoStraddle(x, pat, y)
    ensures Replace(x + y, pat, rep) == Replace(x, pat, rep) + Replace(y, pat, rep)
    decreases |x|
  {
    StartsWithOccurs(x, pat);
    StartsWithOccurs(x + y, pat);
    if x == [] {
      assert x + y == y;
    } else if OccursAt(x, pat, 0) {
      assert (x + y)[..|pat|] == x[..|pat|];
      assert (x + y)[|pat|..] == x[|pat|..] + y;
      NoStraddleShift(x, pat, y, |pat|);
      ReplaceConcat(x[|pat|..], y, pat, rep);
    } else {
      assert !OccursAt(x + y, pat, 0) by {
        if |pat| <= |x| {
          assert (x + y)[..|pat|] == x[..|pat|];
        } else {
          assert |x| - |pat| < 0 < |x|;
        }
      }
      assert (x + y)[1..] == x[1..] + y;
      NoStraddleShift(x, pat, y, 1);
      ReplaceConcat(x[1..], y, pat, rep);
    }
  }

  // ---------------------------------------------------------------- strtolower

  predicate IsUpper(c: char) {
    'A' <= c <= 'Z'
  }

  /** ASCII lower-casing of one character; every other character is kept. */
  function LowerChar(c: char): char {
    if IsUpper(c) then (c as int + 32) as char else c
  }

  /** PHP `strtolower` on ASCII letters. */
  function Lower(s: string): (r: string)
    ensures |r| == |s|
    ensures forall i :: 0 <= i < |s| ==> r[i] == LowerChar(s[i])
    ensures forall i :: 0 <= i < |r| ==> !IsUpper(r[i])
    decreases |s|
  {
    if s == [] then [] else [LowerChar(s[0])] + Lower(s[1..])
  }

  /** Lower-casing distributes over concatenation. */
  lemma LowerConcat(x: string, y: string)
    ensures Lower(x + y) == Lower(x) + Lower(y)
  {
  }

  // ---------------------------------------------------------------- explode / implode

  /** The scan behind PHP `explode(sep, s)`: `piece` holds the characters read since the
      last separator. */
  function SplitFrom(s: string, sep: string, piece: string): (r: seq<string>)
    requires |sep| > 0
    ensures |r| >= 1
    decreases |s|
  {
    if |s| < |sep| then [piece + s]
    else if StartsWith(s, sep) then
      StartsWithOccurs(s, sep);
      [piece] + SplitFrom(s[|sep|..], sep, [])
    else SplitFrom(s[1..], sep, piece + [s[0]])
  }

  /** PHP `explode(sep, s)` for a non-empty separator: the maximal pieces between
      separator occurrences, empty pieces included. */
  function Explode(sep: string, s: string): (r: seq<string>)
    requires |sep| > 0
  {
    SplitFrom(s, sep, [])
  }

  /** PHP `implode(sep, parts)`. */
  function Join(sep: string, parts: seq<string>): string
    decreases |parts|
  {
    if |parts| == 0 then []
    else if |parts| == 1 then parts[0]
    else parts[0] + sep + Join(sep, parts[1..])
  }

  lemma {:induction false} SplitFromJoin(s: string, sep: string, piece: string)
    requires |sep| > 0
    ensures Join(sep, SplitFrom(s, sep, piece)) == piece + s
    decreases |s|
  {
    StartsWithOccurs(s, sep);
    if |s| < |sep| {
    } else if OccursAt(s, sep, 0) {
      SplitFromJoin(s[|sep|..], sep, []);
      assert s == sep + s[|sep|..];
    } else {
      SplitFromJoin(s[1..], sep, piece + [s[0]]);
      assert piece + [s[0]] + s[1..] == piece + s;
    }
  }

  /** Joining the exploded pieces with the separator gives back the string. */
  lemma ExplodeJoin(sep: string, s: string)
    requires |sep| > 0
    ensures Join(sep, Explode(sep, s)) == s
  {
    SplitFromJoin(s, sep, []);
  }

  lemma {:induction false} SplitFromClean(s: string, sep: string, piece: string)
    requires |sep| > 0
    requires forall i :: 0 <= i < |piece| ==> !OccursAt(piece + s, sep, i)
    ensures forall p, i :: p in SplitFrom(s, sep, piece) ==> !OccursAt(p, sep, i)
    decreases |s|
  {
    StartsWithOccurs(s, sep);
    if |s| < |sep| {
      forall i ensures !OccursAt(piece + s, sep, i) {
        if 0 <= i < |piece| {
        }
      }
    } else if OccursAt(s, sep, 0) {
      forall i ensures !OccursAt(piece, sep, i) {
        if 0 <= i && i + |sep| <= |piece| {
          assert !OccursAt(piece + s, sep, i);
          assert (piece + s)[i..i + |sep|] == piece[i..i + |sep|];
        }
      }
      SplitFromClean(s[|sep|..], sep, []);
    } else {
      var piece' := piece + [s[0]];
      assert piece' + s[1..] == piece + s;
      forall i | 0 <= i < |piece'| ensures !OccursAt(piece' + s[1..], sep, i) {
        if i == |piece| {
          assert (piece + s)[i..i + |sep|] == s[..|sep|];
        }
      }
      SplitFromClean(s[1..], sep, piece');
    }
  }

  /** No exploded piece contains the separator. */
  lemma ExplodeClean(sep: string, s: string)
    requires |sep| > 0
    ensures forall p :: p in Explode(sep, s) ==> !Contains(p, sep)
  {
    SplitFromClean(s, sep, []);
    forall p | p in Explode(sep, s) ensures !Contains(p, sep) {
      ContainsOccurs(p, sep);
    }
  }

  lemma {:induction false} SplitFromAbsent(s: string, sep: string, piece: string)
    requires |sep| > 0
    requires !Contains(s, sep)
    ensures SplitFrom(s, sep, piece) == [piece + s]
    decreases |s|
  {
    if |s| >= |sep| {
      StartsWithOccurs(s, sep);
      SplitFromAbsent(s[1..], sep, piece + [s[0]]);
      assert piece + [s[0]] + s[1..] == piece + s;
    }
  }

  /** A string without the separator explodes to itself alone. */
  lemma ExplodeAbsent(sep: string, s: string)
    requires |sep| > 0
    requires !Contains(s, sep)
    ensures Explode(sep, s) == [s]
  {
    SplitFromAbsent(s, sep, []);
    assert [] + s == s;
  }

  lemma {:induction false} SplitFromConcat(x: string, sep: string, y: string, piece: string)
    requires |sep| > 0
    requires NoStraddle(x, sep, sep + y)
    ensures SplitFrom(x + sep + y, sep, piece) == SplitFrom(x, sep, piece) + Explode(sep, y)
    decreases |x|
  {
    StartsWithOccurs(x, sep);
    StartsWithOccurs(x + sep + y, sep);
    var s := x + sep + y;
    assert s == x + (sep + y);
    if x == [] {
      assert s == sep + y;
      assert OccursAt(s, sep, 0);
      assert s[|sep|..] == y;
      assert piece + x == piece;
    } else if |x| >= |sep| && OccursAt(x, sep, 0) {
      assert s[..|sep|] == x[..|sep|];
      assert s[|sep|..] == x[|sep|..] + sep + y;
      NoStraddleShift(x, sep, sep + y, |sep|);
      SplitFromConcat(x[|sep|..], sep, y, []);
    } else {
      assert !OccursAt(s, sep, 0) by {
        if |sep| <= |x| {
          assert s[..|sep|] == x[..|sep|];
        } else {
          assert |x| - |sep| < 0 < |x|;
        }
      }
      assert s[1..] == x[1..] + sep + y;
      assert piece + [x[0]] + x[1..] == piece + x;
      NoStraddleShift(x, sep, sep + y, 1);
      SplitFromConcat(x[1..], sep, y, piece + [x[0]]);
    }
  }

  /** Exploding `x + sep + y` gives the pieces of `x` followed by those of `y`, when no
      occurrence of the separator starts in `x` and runs into the inserted one. */
  lemma ExplodeConcat(x: string, sep: string, y: string)
    requires |sep| > 0
    requires NoStraddle(x, sep, sep + y)
    ensures Explode(sep, x + sep + y) == Explode(sep, x) + Explode(sep, y)
  {
    SplitFromConcat(x, sep, y, []);
  }
}
