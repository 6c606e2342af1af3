/** The string operations the application relies on: `split` on a
    one-character separator with `pop()`, `includes` and `toLowerCase`, as
    the scripts call them, and the last-dot scan inside Node's `path.parse`
    (`LastIndexOf`). `Join` is not called by the scripts: it is the inverse
    of `split` used to characterise it. Strings are sequences of
    characters. */
module Text {

  // ------------------------------------------------------------------
  // split and join
  // ------------------------------------------------------------------

  /** `s.split(sep)`: the pieces of `s` between occurrences of `sep`, in
      order. Splitting never yields an empty list (`"".split(".")` is `[""]`). */
  function Split(s: string, sep: char): (parts: seq<string>)
    ensures |parts| >= 1
    decreases |s|
  {
    if |s| == 0 then [""]
    else
      var rest := Split(s[1..], sep);
      if s[0] == sep then [""] + rest
      else [[s[0]] + rest[0]] + rest[1..]
  }

  /** `parts.join(sep)`. */
  function Join(parts: seq<string>, sep: char): string
    decreases |parts|
  {
    if |parts| == 0 then ""
    else if |parts| == 1 then parts[0]
    else parts[0] + [sep] + Join(parts[1..], sep)
  }

  /** No piece produced by `split` contains the separator. */
  lemma {:induction false} SplitPiecesHaveNoSeparator(s: string, sep: char)
    ensures forall k :: 0 <= k < |Split(s, sep)| ==> sep !in Split(s, sep)[k]
    decreases |s|
  {
    if |s| > 0 {
      SplitPiecesHaveNoSeparator(s[1..], sep);
      var rest := Split(s[1..], sep);
      if s[0] != sep {
        assert sep !in rest[0];
        assert sep !in [s[0]] + rest[0];
      }
    }
  }

  /** Joining the pieces again gives back the original string. */
  lemma {:induction false} JoinSplit(s: string, sep: char)
    ensures Join(Split(s, sep), sep) == s
    decreases |s|
  {
    if |s| > 0 {
      var rest := Split(s[1..], sep);
      var parts := Split(s, sep);
      JoinSplit(s[1..], sep);
      assert s == [s[0]] + s[1..];
      if s[0] == sep {
        assert parts == [""] + rest;
        assert parts[1..] == rest;
      } else {
        assert parts == [[s[0]] + rest[0]] + rest[1..];
        if |rest| > 1 {
          assert parts[1..] == rest[1..];
          calc {
            Join(parts, sep);
            ([s[0]] + rest[0]) + [sep] + Join(rest[1..], sep);
            [s[0]] + (rest[0] + [sep] + Join(rest[1..], sep));
            [s[0]] + Join(rest, sep);
          }
        }
      }
    }
  }

  /** Splitting a string whose prefix `p` holds no separator glues `p`
      onto the first piece of the rest. */
  lemma {:induction false} SplitPrefix(p: string, t: string, sep: char)
    requires sep !in p
    ensures Split(p + t, sep) == [p + Split(t, sep)[0]] + Split(t, sep)[1..]
    decreases |p|
  {
    if |p| == 0 {
      var st := Split(t, sep);
      assert p + t == t && p + st[0] == st[0];
      assert st == [st[0]] + st[1..];
    } else {
      SplitPrefix(p[1..], t, sep);
      assert (p + t)[1..] == p[1..] + t;
      var st := Split(t, sep);
      assert [p[0]] + (p[1..] + st[0]) == p + st[0];
    }
  }

  /** Splitting a join of separator-free pieces gives back the pieces. */
  lemma {:induction false} SplitJoin(parts: seq<string>, sep: char)
    requires |parts| >= 1
    requires forall k :: 0 <= k < |parts| ==> sep !in parts[k]
    ensures Split(Join(parts, sep), sep) == parts
    decreases |parts|
  {
    if |parts| == 1 {
      SplitPrefix(parts[0], "", sep);
      assert parts[0] + "" == parts[0];
    } else {
      var tail := Join(parts[1..], sep);
      SplitJoin(parts[1..], sep);
      assert Join(parts, sep) == parts[0] + ([sep] + tail);
      SplitPrefix(parts[0], [sep] + tail, sep);
      assert ([sep] + tail)[1..] == tail;
      assert Split([sep] + tail, sep) == [""] + parts[1..];
      assert parts[0] + "" == parts[0];
      assert parts == [parts[0]] + parts[1..];
    }
  }

  /** A join of two or more pieces ends with the separator and the last piece. */
  lemma {:induction false} JoinLast(parts: seq<string>, sep: char)
    requires |parts| >= 2
    ensures Join(parts, sep) == Join(parts[..|parts| - 1], sep) + [sep] + parts[|parts| - 1]
    decreases |parts|
  {
    var n := |parts|;
    if n > 2 {
      JoinLast(parts[1..], sep);
      assert parts[1..][..n - 2] == parts[..n - 1][1..];
      assert parts[1..][n - 2] == parts[n - 1];
    }
  }

  // ------------------------------------------------------------------
  // the last piece: split(sep).pop()
  // ------------------------------------------------------------------

  /** `s.split(sep).pop()`. */
  function LastSegment(s: string, sep: char): string
  {
    var parts := Split(s, sep);
    parts[|parts| - 1]
  }

  /** `e` is the text after the last `sep` in `s`, or the whole of `s`
      when `s` holds no `sep`. */
  predicate IsLastSegment(s: string, sep: char, e: string)
  {
    && |e| <= |s|
    && s[|s| - |e|..] == e
    && sep !in e
    && (|e| < |s| ==> s[|s| - |e| - 1] == sep)
  }

  /** At most one string is the last segment. */
  lemma IsLastSegmentUnique(s: string, sep: char, e1: string, e2: string)
    requires IsLastSegment(s, sep, e1) && IsLastSegment(s, sep, e2)
    ensures e1 == e2
  {
  }

  /** `split(sep).pop()` is the text after the last separator, and it is
      the whole string exactly when there is no separator. */
  lemma LastSegmentSpec(s: string, sep: char)
    ensures IsLastSegment(s, sep, LastSegment(s, sep))
    ensures |LastSegment(s, sep)| == |s| <==> sep !in s
  {
    var parts := Split(s, sep);
    var n := |parts|;
    JoinSplit(s, sep);
    SplitPiecesHaveNoSeparator(s, sep);
    var e := parts[n - 1];
    assert sep !in e;
    if n >= 2 {
      JoinLast(parts, sep);
      var init := Join(parts[..n - 1], sep);
      assert s == init + [sep] + e;
      assert s[|init|] == sep;
      assert s[|s| - |e|..] == e;
    }
  }

  // ------------------------------------------------------------------
  // the last occurrence (the last-dot scan of path.parse)
  // ------------------------------------------------------------------

  /** The index of the last `c` in `s`, or -1 when there is none. */
  function LastIndexOf(s: string, c: char): (k: int)
    ensures -1 <= k < |s|
    ensures k >= 0 ==> s[k] == c
    ensures forall j :: k < j < |s| ==> s[j] != c
    decreases |s|
  {
    if |s| == 0 then -1
    else if s[|s| - 1] == c then |s| - 1
    else LastIndexOf(s[..|s| - 1], c)
  }

  /** A position holding `c` with no `c` after it is the last index of `c`. */
  lemma LastIndexOfAt(s: string, c: char, i: int)
    requires -1 <= i < |s|
    requires i >= 0 ==> s[i] == c
    requires forall j :: i < j < |s| ==> s[j] != c
    ensures LastIndexOf(s, c) == i
  {
  }

  /** The last piece of `split` starts right after the last separator. */
  lemma LastSegmentAfterLastIndex(s: string, c: char)
    ensures LastSegment(s, c) == s[LastIndexOf(s, c) + 1..]
  {
    var k := LastIndexOf(s, c);
    var e := s[k + 1..];
    LastSegmentSpec(s, c);
    assert IsLastSegment(s, c, e);
    IsLastSegmentUnique(s, c, e, LastSegment(s, c));
  }

  // ------------------------------------------------------------------
  // includes
  // ------------------------------------------------------------------

  /** `s` occurs in `t` starting at index `i`. */
  predicate OccursAt(t: string, s: string, i: nat)
  {
    i + |s| <= |t| && t[i..i + |s|] == s
  }

  /** `t.includes(s)`, scanning from the left. */
  function Includes(t: string, s: string): bool
    decreases |t|
  {
    if |t| < |s| then false
    else if t[..|s|] == s then true
    else Includes(t[1..], s)
  }

  /** `includes` holds exactly when `s` occurs somewhere in `t`. */
  lemma {:induction false} IncludesSpec(t: string, s: string)
    ensures Includes(t, s) <==> exists i: nat :: OccursAt(t, s, i)
    decreases |t|
  {
    if |t| < |s| {
    } else if t[..|s|] == s {
      assert OccursAt(t, s, 0);
    } else {
      IncludesSpec(t[1..], s);
      if Includes(t[1..], s) {
        var i: nat :| OccursAt(t[1..], s, i);
        assert t[1..][i..i + |s|] == t[i + 1..i + 1 + |s|];
        assert OccursAt(t, s, i + 1);
      } else {
        forall i: nat | OccursAt(t, s, i)
          ensures false
        {
          assert i != 0;
          assert t[1..][i - 1..i - 1 + |s|] == t[i..i + |s|];
          assert OccursAt(t[1..], s, i - 1);
        }
      }
    }
  }

  // ------------------------------------------------------------------
  // toLowerCase
  // ------------------------------------------------------------------

  predicate IsAsciiUpper(c: char)
  {
    'A' <= c <= 'Z'
  }

  /** The lower-case letter for an ASCII capital; every other character
      is left alone. */
  function LowerChar(c: char): char
  {
    if IsAsciiUpper(c) then (c as int + 32) as char else c
  }

  /** `s.toLowerCase()`, restricted to ASCII letters: same length, no
      capital left, and every character mapped on its own. */
  function ToLower(s: string): (r: string)
    ensures |r| == |s|
    ensures forall i :: 0 <= i < |s| ==> r[i] == LowerChar(s[i]) && !IsAsciiUpper(r[i])
    decreases |s|
  {
    if |s| == 0 then "" else [LowerChar(s[0])] + ToLower(s[1..])
  }
}
