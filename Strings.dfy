/** The few operations of Kotlin's String API that the library relies on,
    written out so that their edge cases are explicit: split on a single
    character never returns an empty list, trim removes whitespace at both
    ends, lines() breaks at "\r\n", "\n" and "\r". */
module Strings {

  /** Kotlin's Char.isWhitespace restricted to the ASCII range. */
  predicate IsWhitespace(c: char) {
    c == ' ' || c == '\t' || c == '\n' || c == '\U{B}' || c == '\U{C}' || c == '\r'
    || ('\U{1C}' <= c <= '\U{1F}')
  }

  /** String.isBlank: empty or only whitespace. */
  predicate IsBlank(s: string) {
    forall i :: 0 <= i < |s| ==> IsWhitespace(s[i])
  }

  predicate StartsWith(s: string, p: string) {
    |p| <= |s| && s[..|p|] == p
  }

  /** String.contains(other): `sub` occurs somewhere in `s`. */
  predicate Contains(s: string, sub: string) {
    exists i | 0 <= i <= |s| - |sub| :: OccursAt(s, sub, i)
  }

  predicate OccursAt(s: string, sub: string, i: int)
    requires 0 <= i <= |s| - |sub|
  {
    s[i..i + |sub|] == sub
  }

  /** Index of the first non-whitespace character, or |s|. */
  function SkipWhitespace(s: string): (i: nat)
    ensures i <= |s|
    ensures forall k :: 0 <= k < i ==> IsWhitespace(s[k])
    ensures i < |s| ==> !IsWhitespace(s[i])
  {
    if |s| == 0 || !IsWhitespace(s[0]) then 0 else 1 + SkipWhitespace(s[1..])
  }

  /** Length of the prefix that remains once trailing whitespace is removed. */
  function TrimEndLength(s: string): (n: nat)
    ensures n <= |s|
    ensures forall k :: n <= k < |s| ==> IsWhitespace(s[k])
    ensures n > 0 ==> !IsWhitespace(s[n - 1])
  {
    if |s| == 0 || !IsWhitespace(s[|s| - 1]) then |s| else TrimEndLength(s[..|s| - 1])
  }

  /** String.trim(). */
  function Trim(s: string): string {
    var i := SkipWhitespace(s);
    s[i..][..TrimEndLength(s[i..])]
  }

  /** trim() keeps one contiguous slice, drops only whitespace, and the slice
      starts and ends with a non-whitespace character (or is empty). */
  lemma TrimIsCore(s: string)
    ensures exists i, j :: 0 <= i <= j <= |s| && Trim(s) == s[i..j]
                           && (forall k :: 0 <= k < i ==> IsWhitespace(s[k]))
                           && (forall k :: j <= k < |s| ==> IsWhitespace(s[k]))
    ensures Trim(s) == [] || (!IsWhitespace(Trim(s)[0]) && !IsWhitespace(Trim(s)[|Trim(s)| - 1]))
  {
    var i := SkipWhitespace(s);
    var n := TrimEndLength(s[i..]);
    assert Trim(s) == s[i..i + n];
  }

  /** A trimmed string is blank exactly when it is empty. */
  lemma TrimBlank(s: string)
    ensures Trim(s) == [] <==> IsBlank(s)
  {
    var i := SkipWhitespace(s);
    var n := TrimEndLength(s[i..]);
    if n > 0 {
      assert !IsWhitespace(s[i + n - 1]);
    }
  }

  /** trim() is idempotent. */
  lemma TrimIdempotent(s: string)
    ensures Trim(Trim(s)) == Trim(s)
  {
    TrimIsCore(s);
    var t := Trim(s);
    if t != [] {
      assert SkipWhitespace(t) == 0;
      assert t[0..] == t;
      assert TrimEndLength(t) == |t|;
    }
  }

  /** String.indexOf(c): the first index of `c`, or -1. */
  function IndexOf(s: string, c: char): (i: int)
    ensures -1 <= i < |s|
    ensures i == -1 <==> c !in s
    ensures i >= 0 ==> s[i] == c && forall k :: 0 <= k < i ==> s[k] != c
  {
    if |s| == 0 then -1
    else if s[0] == c then 0
    else
      var j := IndexOf(s[1..], c);
      if j == -1 then -1 else 1 + j
  }

  /** String.indexOfAny(chars): the first index of any of `cs`, or -1. */
  function IndexOfAny(s: string, cs: set<char>): (i: int)
    ensures -1 <= i < |s|
    ensures i == -1 <==> forall k :: 0 <= k < |s| ==> s[k] !in cs
    ensures i >= 0 ==> s[i] in cs && forall k :: 0 <= k < i ==> s[k] !in cs
  {
    if |s| == 0 then -1
    else if s[0] in cs then 0
    else
      var j := IndexOfAny(s[1..], cs);
      if j == -1 then -1 else 1 + j
  }

  /** String.split(c): the pieces between successive occurrences of `c`;
      never an empty list, "" splits into [""]. */
  function Split(s: string, c: char): (r: seq<string>)
    ensures |r| >= 1
    decreases |s|
  {
    var i := IndexOf(s, c);
    if i == -1 then [s] else [s[..i]] + Split(s[i + 1..], c)
  }

  /** No piece of a split holds the separator. */
  lemma {:induction false} SplitPieces(s: string, c: char)
    ensures forall k :: 0 <= k < |Split(s, c)| ==> c !in Split(s, c)[k]
    decreases |s|
  {
    var i := IndexOf(s, c);
    if i != -1 {
      SplitPieces(s[i + 1..], c);
      var rest := Split(s[i + 1..], c);
      assert c !in s[..i];
      forall k | 0 <= k < |Split(s, c)| ensures c !in Split(s, c)[k] {
        if k == 0 {
          assert Split(s, c)[0] == s[..i];
        } else {
          assert Split(s, c)[k] == rest[k - 1];
        }
      }
    }
  }

  /** List.joinToString(sep). */
  function Join(ps: seq<string>, sep: string): string {
    if |ps| == 0 then ""
    else if |ps| == 1 then ps[0]
    else ps[0] + sep + Join(ps[1..], sep)
  }

  /** Joining the pieces of a split with the separator gives back the input. */
  lemma {:induction false} JoinSplit(s: string, c: char)
    ensures Join(Split(s, c), [c]) == s
    decreases |s|
  {
    var i := IndexOf(s, c);
    if i != -1 {
      var rest := Split(s[i + 1..], c);
      assert Join(rest, [c]) == s[i + 1..] by {
        JoinSplit(s[i + 1..], c);
      }
      assert Join(Split(s, c), [c]) == s[..i] + [c] + Join(rest, [c]) by {
        assert Split(s, c) == [s[..i]] + rest;
        JoinConsPiece(s[..i], rest, [c]);
      }
      assert s[..i] + [c] + s[i + 1..] == s;
    }
  }

  lemma JoinConsPiece(p: string, ps: seq<string>, sep: string)
    requires |ps| >= 1
    ensures Join([p] + ps, sep) == p + sep + Join(ps, sep)
  {
    assert ([p] + ps)[1..] == ps;
  }

  /** Splitting a join of separator-free pieces gives back the pieces. */
  lemma {:induction false} SplitJoin(ps: seq<string>, c: char)
    requires |ps| >= 1
    requires forall k :: 0 <= k < |ps| ==> c !in ps[k]
    ensures Split(Join(ps, [c]), c) == ps
    decreases |ps|
  {
    assert Split(ps[0], c) == [ps[0]];
    if |ps| > 1 {
      SplitAppend(ps[0], Join(ps[1..], [c]), c);
      SplitJoin(ps[1..], c);
      assert ps == [ps[0]] + ps[1..];
    }
  }

  /** indexOf is determined by the first occurrence. */
  lemma IndexOfFirst(s: string, c: char, i: nat)
    requires i < |s| && s[i] == c && forall k :: 0 <= k < i ==> s[k] != c
    ensures IndexOf(s, c) == i
  {
    assert c in s;
  }

  /** Splitting a concatenation around a separator splits each side. */
  lemma {:induction false} SplitAppend(a: string, b: string, c: char)
    ensures Split(a + [c] + b, c) == Split(a, c) + Split(b, c)
    decreases |a|
  {
    var i := IndexOf(a, c);
    if i == -1 {
      SplitAppendLast(a, b, c);
    } else {
      SplitAppend(a[i + 1..], b, c);
      SplitAppendStep(a, b, c, i);
    }
  }

  /** The first separator of a + [c] + b is the one between them when a has none. */
  lemma SplitAppendLast(a: string, b: string, c: char)
    requires c !in a
    ensures Split(a + [c] + b, c) == Split(a, c) + Split(b, c)
  {
    var s := a + [c] + b;
    assert IndexOf(s, c) == |a| by {
      assert s[..|a|] == a && s[|a|] == c;
      IndexOfFirst(s, c, |a|);
    }
    assert s[..|a|] == a && s[|a| + 1..] == b;
  }

  /** When a holds a separator at i, splitting a + [c] + b cuts there first, as
      splitting a does. */
  lemma SplitAppendStep(a: string, b: string, c: char, i: nat)
    requires i < |a| && a[i] == c && forall k :: 0 <= k < i ==> a[k] != c
    requires Split(a[i + 1..] + [c] + b, c) == Split(a[i + 1..], c) + Split(b, c)
    ensures Split(a + [c] + b, c) == Split(a, c) + Split(b, c)
  {
    SplitCutAppend(a, b, c, i);
    SplitCut(a, c, i);
    AppendAssoc([a[..i]], Split(a[i + 1..], c), Split(b, c));
  }

  /** The first separator of a + [c] + b lies inside a when a holds one. */
  lemma SplitCutAppend(a: string, b: string, c: char, i: nat)
    requires i < |a| && a[i] == c && forall k :: 0 <= k < i ==> a[k] != c
    ensures Split(a + [c] + b, c) == [a[..i]] + Split(a[i + 1..] + [c] + b, c)
  {
    var s := a + [c] + b;
    assert s[..i] == a[..i] && s[i] == c;
    SplitCut(s, c, i);
    DropAppend(a + [c], b, i + 1);
    DropAppend(a, [c], i + 1);
  }

  /** split cuts at the first separator. */
  lemma SplitCut(s: string, c: char, i: nat)
    requires i < |s| && s[i] == c && forall k :: 0 <= k < i ==> s[k] != c
    ensures Split(s, c) == [s[..i]] + Split(s[i + 1..], c)
  {
    IndexOfFirst(s, c, i);
  }

  lemma AppendAssoc<T>(x: seq<T>, y: seq<T>, z: seq<T>)
    ensures x + (y + z) == (x + y) + z
  {
  }

  /** Dropping a prefix of the left operand of a concatenation. */
  lemma DropAppend<T>(u: seq<T>, v: seq<T>, k: nat)
    requires k <= |u|
    ensures (u + v)[k..] == u[k..] + v
  {
  }

  /** split(c) returns a single piece exactly when `c` does not occur. */
  lemma SplitSingle(s: string, c: char)
    ensures |Split(s, c)| == 1 <==> c !in s
    ensures c !in s ==> Split(s, c) == [s]
  {
  }

  /** A character that is neither in any piece nor in the separator is not in the join. */
  lemma {:induction false} JoinAvoids(ps: seq<string>, sep: string, c: char)
    requires forall k :: 0 <= k < |ps| ==> c !in ps[k]
    requires c !in sep
    ensures c !in Join(ps, sep)
  {
    if |ps| > 1 {
      JoinAvoids(ps[1..], sep, c);
    }
  }

  /** trim() leaves a string alone when neither end is whitespace. */
  lemma TrimUnchanged(s: string)
    requires |s| > 0 ==> !IsWhitespace(s[0]) && !IsWhitespace(s[|s| - 1])
    ensures Trim(s) == s
  {
    if |s| > 0 {
      assert SkipWhitespace(s) == 0;
      assert s[0..] == s;
    }
  }

  /** The words of a string: the non-blank pieces of split(' '), in order. */
  function NonBlank(ws: seq<string>): (r: seq<string>)
    ensures |r| <= |ws|
    ensures forall k :: 0 <= k < |r| ==> !IsBlank(r[k])
  {
    if |ws| == 0 then []
    else if IsBlank(ws[0]) then NonBlank(ws[1..])
    else [ws[0]] + NonBlank(ws[1..])
  }

  lemma {:induction false} NonBlankAppend(a: seq<string>, b: seq<string>)
    ensures NonBlank(a + b) == NonBlank(a) + NonBlank(b)
    decreases |a|
  {
    if |a| > 0 {
      assert (a + b)[1..] == a[1..] + b;
      NonBlankAppend(a[1..], b);
    } else {
      assert a + b == b;
    }
  }

  /** Whether `s` has a line break that String.lines() recognises. */
  predicate IsLineBreak(c: char) { c == '\n' || c == '\r' }

  /** The index of the first line break, or -1. */
  function FirstBreak(s: string): (i: int)
    ensures -1 <= i < |s|
    ensures i == -1 <==> forall k :: 0 <= k < |s| ==> !IsLineBreak(s[k])
    ensures i >= 0 ==> IsLineBreak(s[i]) && forall k :: 0 <= k < i ==> !IsLineBreak(s[k])
  {
    if |s| == 0 then -1
    else if IsLineBreak(s[0]) then 0
    else
      var j := FirstBreak(s[1..]);
      if j == -1 then -1 else 1 + j
  }

  /** The length of the break at `i`: "\r\n" is one break of two characters. */
  function BreakLength(s: string, i: nat): (n: nat)
    requires i < |s|
    ensures 1 <= n <= 2 && i + n <= |s|
  {
    if s[i] == '\r' && i + 1 < |s| && s[i + 1] == '\n' then 2 else 1
  }

  /** String.lines(): split at "\r\n", "\n" or "\r". */
  function Lines(s: string): (r: seq<string>)
    ensures |r| >= 1
    ensures forall k :: 0 <= k < |r| ==> forall j :: 0 <= j < |r[k]| ==> !IsLineBreak(r[k][j])
    ensures FirstBreak(s) == -1 ==> r == [s]
    decreases |s|
  {
    var i := FirstBreak(s);
    if i == -1 then [s] else [s[..i]] + Lines(s[i + BreakLength(s, i)..])
  }

  /** What follows the first break of `s`. */
  function AfterBreak(s: string): string
    requires FirstBreak(s) != -1
  {
    var i := FirstBreak(s);
    s[i + BreakLength(s, i)..]
  }

  /** The characters of `s` that are not line breaks, in order. */
  function DropBreaks(s: string): string {
    if |s| == 0 then "" else (if IsLineBreak(s[0]) then "" else [s[0]]) + DropBreaks(s[1..])
  }

  /** The strings of `ls` run together. */
  function Concat(ls: seq<string>): string {
    if |ls| == 0 then "" else ls[0] + Concat(ls[1..])
  }

  lemma {:induction false} DropBreaksAppend(a: string, b: string)
    ensures DropBreaks(a + b) == DropBreaks(a) + DropBreaks(b)
    decreases |a|
  {
    if |a| == 0 {
      assert a + b == b;
    } else {
      assert (a + b)[0] == a[0] && (a + b)[1..] == a[1..] + b;
      DropBreaksAppend(a[1..], b);
    }
  }

  lemma {:induction false} DropBreaksNone(s: string)
    requires forall k :: 0 <= k < |s| ==> !IsLineBreak(s[k])
    ensures DropBreaks(s) == s
    decreases |s|
  {
    if |s| > 0 {
      DropBreaksNone(s[1..]);
      assert [s[0]] + s[1..] == s;
    }
  }

  /** lines() cuts at the first break, taking "\r\n" as one break. */
  lemma LinesCut(s: string, i: nat, skip: nat)
    requires i < |s| && IsLineBreak(s[i]) && forall k :: 0 <= k < i ==> !IsLineBreak(s[k])
    requires skip == BreakLength(s, i)
    ensures Lines(s) == [s[..i]] + Lines(s[i + skip..])
  {
    FirstBreakAt(s, i);
    var head, rest := s[..FirstBreak(s)], AfterBreak(s);
    assert head == s[..i] && rest == s[i + skip..];
    LinesUnfold(s);
  }

  lemma LinesUnfold(s: string)
    requires FirstBreak(s) != -1
    ensures Lines(s) == [s[..FirstBreak(s)]] + Lines(AfterBreak(s))
  {
  }

  /** The lines hold every character of the input that is not a line break, in
      order: only the breaks are lost. */
  lemma {:induction false} LinesKeepText(s: string)
    ensures Concat(Lines(s)) == DropBreaks(s)
    decreases |s|
  {
    if FirstBreak(s) == -1 {
      ConcatSingleLine(s);
      DropBreaksNone(s);
    } else {
      LinesKeepText(AfterBreak(s));
      ConcatLinesCut(s);
      DropBreaksAtBreak(s);
    }
  }

  lemma ConcatSingleLine(s: string)
    requires FirstBreak(s) == -1
    ensures Concat(Lines(s)) == s
  {
    ConcatCons(s, []);
  }

  lemma ConcatLinesCut(s: string)
    requires FirstBreak(s) != -1
    ensures Concat(Lines(s)) == s[..FirstBreak(s)] + Concat(Lines(AfterBreak(s)))
  {
    ConcatCons(s[..FirstBreak(s)], Lines(AfterBreak(s)));
  }

  lemma DropBreaksAtBreak(s: string)
    requires FirstBreak(s) != -1
    ensures DropBreaks(s) == s[..FirstBreak(s)] + DropBreaks(AfterBreak(s))
  {
    var i := FirstBreak(s);
    var n := BreakLength(s, i);
    assert forall k :: i <= k < i + n ==> IsLineBreak(s[k]) by {
      assert n == 2 ==> s[i + 1] == '\n';
    }
    DropBreaksCut(s, i, n);
  }

  lemma DropBreaksCut(s: string, i: nat, skip: nat)
    requires i + skip <= |s| && 1 <= skip <= 2
    requires forall k :: 0 <= k < i ==> !IsLineBreak(s[k])
    requires forall k :: i <= k < i + skip ==> IsLineBreak(s[k])
    ensures DropBreaks(s) == s[..i] + DropBreaks(s[i + skip..])
  {
    DropBreaksSplit(s, i);
    assert DropBreaks(s[..i]) == s[..i] by { DropBreaksNone(s[..i]); }
    var t := s[i..];
    assert DropBreaks(t) == DropBreaks(t[..skip]) + DropBreaks(t[skip..]) by { DropBreaksSplit(t, skip); }
    assert DropBreaks(t[..skip]) == "" by { DropBreaksOfBreak(t[..skip]); }
    assert t[skip..] == s[i + skip..];
    assert DropBreaks(t) == DropBreaks(s[i + skip..]);
  }

  lemma DropBreaksSplit(s: string, j: nat)
    requires j <= |s|
    ensures DropBreaks(s) == DropBreaks(s[..j]) + DropBreaks(s[j..])
  {
    assert s[..j] + s[j..] == s;
    DropBreaksAppend(s[..j], s[j..]);
  }

  lemma DropBreaksOfBreak(brk: string)
    requires 1 <= |brk| <= 2 && forall k :: 0 <= k < |brk| ==> IsLineBreak(brk[k])
    ensures DropBreaks(brk) == ""
  {
    if |brk| == 2 {
      assert brk[1..][1..] == [];
    }
  }

  lemma ConcatCons(x: string, ls: seq<string>)
    ensures Concat([x] + ls) == x + Concat(ls)
  {
    assert ([x] + ls)[1..] == ls;
  }

  /** The first break is determined by its position. */
  lemma FirstBreakAt(s: string, i: nat)
    requires i < |s| && IsLineBreak(s[i]) && forall k :: 0 <= k < i ==> !IsLineBreak(s[k])
    ensures FirstBreak(s) == i
  {
  }

  /** Break-free lines joined by any one of the breaks lines() recognises read back
      as those lines. */
  lemma {:induction false} LinesJoin(ls: seq<string>, br: string)
    requires |ls| >= 1 && (br == "\n" || br == "\r" || br == "\r\n")
    requires forall k :: 0 <= k < |ls| ==> forall j :: 0 <= j < |ls[k]| ==> !IsLineBreak(ls[k][j])
    ensures Lines(Join(ls, br)) == ls
    decreases |ls|
  {
    if |ls| == 1 {
      assert Join(ls, br) == ls[0];
      assert ls == [ls[0]];
    } else {
      var first, tail := ls[0], ls[1..];
      var rest := Join(tail, br);
      assert Lines(rest) == tail by {
        LinesJoin(tail, br);
      }
      assert Lines(Join(ls, br)) == [first] + Lines(rest) by {
        assert Join(ls, br) == first + br + rest;
        assert br == "\r" ==> '\n' !in rest by {
          forall k | 0 <= k < |tail| ensures '\n' !in tail[k] {
            assert tail[k] == ls[k + 1];
          }
          if br == "\r" {
            JoinAvoids(tail, br, '\n');
          }
        }
        LinesJoinStep(first, br, rest);
      }
      assert ls == [first] + tail;
    }
  }

  /** One break-free line in front of a break and a remainder that does not start
      with '\n' becomes the first line. */
  lemma LinesJoinStep(first: string, br: string, rest: string)
    requires br == "\n" || br == "\r" || br == "\r\n"
    requires forall j :: 0 <= j < |first| ==> !IsLineBreak(first[j])
    requires br == "\r" ==> '\n' !in rest
    ensures Lines(first + br + rest) == [first] + Lines(rest)
  {
    var s := first + br + rest;
    var i := |first|;
    assert s[..i] == first && s[i] == br[0];
    assert s[i + |br|..] == rest;
    if br == "\r" && |rest| > 0 {
      assert s[i + 1] == rest[0];
    }
    LinesCut(s, i, |br|);
  }
}
