/**
 * The Ruby String behaviour the layer code relies on: ActiveSupport's
 * `blank?`/`present?`, `String#split` on one character, and `String#gsub`
 * with a literal pattern.
 */
module RubyStrings {
  import opened Wrappers

  /** A character of the POSIX class [[:space:]] as Ruby matches it on Unicode strings. */
  predicate IsSpace(c: char) {
    c == ' ' || c == '\t' || c == '\n' || c == '\r' || c == '\U{000B}' || c == '\U{000C}'
    || c == '\U{0085}' || c == '\U{00A0}' || c == '\U{1680}'
    || ('\U{2000}' <= c <= '\U{200A}')
    || c == '\U{2028}' || c == '\U{2029}' || c == '\U{202F}' || c == '\U{205F}' || c == '\U{3000}'
  }

  /** String#blank?: empty or whitespace only. */
  predicate IsBlank(s: string)
    ensures |s| == 0 ==> IsBlank(s)
    ensures IsBlank(s) <==> forall c :: c in s ==> IsSpace(c)
  {
    forall i :: 0 <= i < |s| ==> IsSpace(s[i])
  }

  /** Object#present? on a string option: not nil and not blank. */
  predicate Present(o: Option<string>)
    ensures Present(o) ==> o.Some? && |o.value| > 0
  {
    o.Some? && !IsBlank(o.value)
  }

  /**
   * All fields of `s` between occurrences of `sep`, empty ones included
   * (the raw material of String#split).
   */
  function Fields(s: string, sep: char): (r: seq<string>)
    ensures |r| >= 1
    ensures forall i :: 0 <= i < |r| ==> sep !in r[i]
    decreases |s|
  {
    if s == [] then [""]
    else
      var rest := Fields(s[1..], sep);
      if s[0] == sep then [""] + rest
      else
        assert forall i :: 1 <= i < |rest| ==> rest[i] == rest[1..][i - 1];
        [[s[0]] + rest[0]] + rest[1..]
  }

  /** Array#join: the pieces with `sep` between neighbours. */
  function Join(pieces: seq<string>, sep: char): string
    requires |pieces| >= 1
  {
    if |pieces| == 1 then pieces[0] else pieces[0] + [sep] + Join(pieces[1..], sep)
  }

  /** Drops the empty strings at the end, as String#split does. */
  function DropTrailingEmpty(ps: seq<string>): (r: seq<string>)
    ensures |r| <= |ps| && r == ps[..|r|]
    ensures r == [] || r[|r| - 1] != ""
    ensures forall i :: |r| <= i < |ps| ==> ps[i] == ""
  {
    if ps != [] && ps[|ps| - 1] == "" then DropTrailingEmpty(ps[..|ps| - 1]) else ps
  }

  /** String#split with a one-character string separator. */
  function Split(s: string, sep: char): (r: seq<string>)
    ensures forall i :: 0 <= i < |r| ==> sep !in r[i]
  {
    var fs := Fields(s, sep);
    var r := DropTrailingEmpty(fs);
    assert forall i :: 0 <= i < |r| ==> r[i] == fs[i];
    r
  }

  lemma {:induction false} FieldsOfFreePrefix(w: string, t: string, sep: char)
    requires sep !in w
    ensures Fields(w + t, sep) == [w + Fields(t, sep)[0]] + Fields(t, sep)[1..]
    decreases |w|
  {
    if w == [] {
      var f := Fields(t, sep);
      assert w + t == t && w + f[0] == f[0];
      assert [f[0]] + f[1..] == f;
    } else {
      assert (w + t)[0] == w[0] && (w + t)[1..] == w[1..] + t;
      FieldsOfFreePrefix(w[1..], t, sep);
      assert [w[0]] + (w[1..] + Fields(t, sep)[0]) == w + Fields(t, sep)[0];
    }
  }

  /** Splitting a join gives back the pieces (when no piece holds the separator). */
  lemma {:induction false} FieldsOfJoin(pieces: seq<string>, sep: char)
    requires |pieces| >= 1
    requires forall i :: 0 <= i < |pieces| ==> sep !in pieces[i]
    ensures Fields(Join(pieces, sep), sep) == pieces
    decreases |pieces|
  {
    if |pieces| == 1 {
      FieldsOfFreePrefix(pieces[0], "", sep);
      assert pieces[0] + "" == pieces[0];
    } else {
      var rest := Join(pieces[1..], sep);
      FieldsOfJoin(pieces[1..], sep);
      FieldsOfFreePrefix(pieces[0], [sep] + rest, sep);
      assert ([sep] + rest)[1..] == rest;
      assert Fields([sep] + rest, sep) == [""] + pieces[1..];
      assert pieces[0] + "" == pieces[0];
      assert pieces[0] + [sep] + rest == pieces[0] + ([sep] + rest);
      assert [pieces[0]] + pieces[1..] == pieces;
    }
  }

  /** The pieces with `a` put in front of the first one. */
  function ExtendFirst(ps: seq<string>, a: string): (r: seq<string>)
    requires |ps| >= 1
    ensures |r| == |ps| && r[0] == a + ps[0]
    ensures forall i :: 1 <= i < |ps| ==> r[i] == ps[i]
  {
    [a + ps[0]] + ps[1..]
  }

  /** The pieces with `b` put after the last one. */
  function ExtendLast(ps: seq<string>, b: string): (r: seq<string>)
    requires |ps| >= 1
    ensures |r| == |ps| && r[|ps| - 1] == ps[|ps| - 1] + b
    ensures forall i :: 0 <= i < |ps| - 1 ==> r[i] == ps[i]
  {
    ps[..|ps| - 1] + [ps[|ps| - 1] + b]
  }

  /** Extending the first piece extends the join at the front. */
  lemma JoinExtendFirst(ps: seq<string>, a: string, sep: char)
    requires |ps| >= 1
    ensures Join(ExtendFirst(ps, a), sep) == a + Join(ps, sep)
  {
    assert ExtendFirst(ps, a)[1..] == ps[1..];
  }

  /** Extending the last piece extends the join at the back. */
  lemma {:induction false} JoinExtendLast(ps: seq<string>, b: string, sep: char)
    requires |ps| >= 1
    ensures Join(ExtendLast(ps, b), sep) == Join(ps, sep) + b
    decreases |ps|
  {
    if |ps| > 1 {
      JoinExtendLast(ps[1..], b, sep);
      assert ExtendLast(ps, b)[1..] == ExtendLast(ps[1..], b);
    }
  }

  /** Joining the fields of a string gives back the string. */
  lemma {:induction false} JoinOfFields(s: string, sep: char)
    ensures Join(Fields(s, sep), sep) == s
    decreases |s|
  {
    if s != [] {
      var rest := Fields(s[1..], sep);
      JoinOfFields(s[1..], sep);
      if s[0] == sep {
        assert ([""] + rest)[1..] == rest;
        assert s == [sep] + s[1..];
      } else {
        JoinExtendFirst(rest, [s[0]], sep);
        assert s == [s[0]] + s[1..];
      }
    }
  }

  /** The pattern occurs in `s` starting at index `i`. */
  predicate OccursAt(s: string, pat: string, i: nat) {
    i + |pat| <= |s| && s[i..i + |pat|] == pat
  }

  lemma OccursAtTail(s: string, pat: string, i: nat)
    requires |s| >= 1
    ensures OccursAt(s[1..], pat, i) <==> OccursAt(s, pat, i + 1)
  {
    if i + |pat| <= |s[1..]| {
      assert s[1..][i..i + |pat|] == s[i + 1..i + 1 + |pat|];
    }
  }

  /**
   * String#gsub with a literal pattern and a literal replacement: every
   * occurrence, scanned left to right without overlap, is replaced.
   */
  function ReplaceAll(s: string, pat: string, rep: string): (r: string)
    requires |pat| > 0
    ensures rep == pat ==> r == s
    decreases |s|
  {
    if |s| < |pat| then s
    else if s[..|pat|] == pat then
      assert s == s[..|pat|] + s[|pat|..];
      rep + ReplaceAll(s[|pat|..], pat, rep)
    else
      assert s == [s[0]] + s[1..];
      [s[0]] + ReplaceAll(s[1..], pat, rep)
  }

  /** Without an occurrence of the pattern, gsub changes nothing. */
  lemma {:induction false} ReplaceAllNoOccurrence(s: string, pat: string, rep: string)
    requires |pat| > 0
    requires forall i: nat :: !OccursAt(s, pat, i)
    ensures ReplaceAll(s, pat, rep) == s
    decreases |s|
  {
    if |s| >= |pat| {
      assert !OccursAt(s, pat, 0);
      forall i: nat ensures !OccursAt(s[1..], pat, i) {
        OccursAtTail(s, pat, i);
      }
      ReplaceAllNoOccurrence(s[1..], pat, rep);
    }
  }

  /** An occurrence at the very start is replaced and scanning resumes after it. */
  lemma ReplaceAllAtStart(pat: string, t: string, rep: string)
    requires |pat| > 0
    ensures ReplaceAll(pat + t, pat, rep) == rep + ReplaceAll(t, pat, rep)
  {
  }

  /** A prefix in which no occurrence starts is copied unchanged. */
  lemma {:induction false} ReplaceAllSkipsPrefix(pre: string, t: string, pat: string, rep: string)
    requires |pat| > 0
    requires forall i: nat :: i < |pre| ==> !OccursAt(pre + t, pat, i)
    ensures ReplaceAll(pre + t, pat, rep) == pre + ReplaceAll(t, pat, rep)
    decreases |pre|
  {
    if pre == [] {
      assert pre + t == t;
    } else {
      var s := pre + t;
      assert !OccursAt(s, pat, 0);
      assert s[1..] == pre[1..] + t;
      forall i: nat | i < |pre[1..]| ensures !OccursAt(pre[1..] + t, pat, i) {
        OccursAtTail(s, pat, i);
      }
      ReplaceAllSkipsPrefix(pre[1..], t, pat, rep);
      if |s| < |pat| {
        ReplaceAllNoOccurrence(t, pat, rep);
      }
      assert [pre[0]] + (pre[1..] + ReplaceAll(t, pat, rep)) == pre + ReplaceAll(t, pat, rep);
    }
  }

  /** The pieces with the string `glue` between neighbours (Array#join with a string separator). */
  function Interleave(ps: seq<string>, glue: string): string
    requires |ps| >= 1
  {
    if |ps| == 1 then ps[0] else ps[0] + glue + Interleave(ps[1..], glue)
  }

  /** Joining with a character is interleaving with that one-character string. */
  lemma {:induction false} JoinIsInterleave(ps: seq<string>, sep: char)
    requires |ps| >= 1
    ensures Join(ps, sep) == Interleave(ps, [sep])
    decreases |ps|
  {
    if |ps| > 1 {
      JoinIsInterleave(ps[1..], sep);
    }
  }

  /** In `Interleave(ps, pat)` no occurrence of `pat` starts inside a piece: it occurs only as the glue. */
  predicate OnlyAtGlue(ps: seq<string>, pat: string) {
    forall i: nat, k: nat :: i < |ps| && k < |ps[i]| ==> !OccursAt(Interleave(ps[i..], pat), pat, k)
  }

  /** Glue that starts with a non-space character makes a join of two or more pieces non-blank. */
  lemma InterleaveNotBlank(ps: seq<string>, glue: string)
    requires |ps| >= 2 && |glue| > 0 && !IsSpace(glue[0])
    ensures !IsBlank(Interleave(ps, glue))
  {
    var w := Interleave(ps, glue);
    assert w == ps[0] + glue + Interleave(ps[1..], glue);
    assert w[|ps[0]|] == glue[0];
  }

  /** A string holding a non-space character is not blank. */
  lemma SurroundedNotBlank(pre: string, mid: string, post: string)
    requires |mid| > 0 && !IsSpace(mid[0])
    ensures !IsBlank(pre + mid + post)
  {
    assert (pre + mid + post)[|pre|] == mid[0];
  }

  /** A single occurrence, with none starting before it or inside what follows, is replaced. */
  lemma ReplaceAllSingle(pre: string, post: string, pat: string, rep: string)
    requires |pat| > 0
    requires forall i: nat :: i < |pre| ==> !OccursAt(pre + pat + post, pat, i)
    requires forall i: nat :: !OccursAt(post, pat, i)
    ensures ReplaceAll(pre + pat + post, pat, rep) == pre + rep + post
  {
    var t := pat + post;
    assert pre + pat + post == pre + t;
    calc {
      ReplaceAll(pre + t, pat, rep);
      { ReplaceAllSkipsPrefix(pre, t, pat, rep); }
      pre + ReplaceAll(t, pat, rep);
      { ReplaceAllAtStart(pat, post, rep); }
      pre + (rep + ReplaceAll(post, pat, rep));
      { ReplaceAllNoOccurrence(post, pat, rep); }
      pre + (rep + post);
      pre + rep + post;
    }
  }

  /** gsub replaces every glue occurrence of the pattern, and nothing else. */
  lemma {:induction false} ReplaceAllInterleave(ps: seq<string>, pat: string, rep: string)
    requires |pat| > 0 && |ps| >= 1
    requires OnlyAtGlue(ps, pat)
    ensures ReplaceAll(Interleave(ps, pat), pat, rep) == Interleave(ps, rep)
    decreases |ps|
  {
    assert ps[0..] == ps;
    if |ps| == 1 {
      forall k: nat ensures !OccursAt(ps[0], pat, k) {
        if k < |ps[0]| {
          assert !OccursAt(Interleave(ps[0..], pat), pat, k);
        }
      }
      ReplaceAllNoOccurrence(ps[0], pat, rep);
    } else {
      var rest := Interleave(ps[1..], pat);
      assert Interleave(ps, pat) == ps[0] + (pat + rest);
      forall k: nat | k < |ps[0]| ensures !OccursAt(ps[0] + (pat + rest), pat, k) {
        assert !OccursAt(Interleave(ps[0..], pat), pat, k);
      }
      ReplaceAllSkipsPrefix(ps[0], pat + rest, pat, rep);
      ReplaceAllAtStart(pat, rest, rep);
      assert OnlyAtGlue(ps[1..], pat) by {
        forall i: nat, k: nat | i < |ps[1..]| && k < |ps[1..][i]|
          ensures !OccursAt(Interleave(ps[1..][i..], pat), pat, k)
        {
          assert ps[1..][i..] == ps[i + 1..];
          assert ps[1..][i] == ps[i + 1];
        }
      }
      ReplaceAllInterleave(ps[1..], pat, rep);
      assert ps[0] + (rep + Interleave(ps[1..], rep)) == ps[0] + rep + Interleave(ps[1..], rep);
    }
  }
}
