/**
 * The two ways the program cuts text: `s.split(sep)` with an explicit
 * separator (LIST entries) and `s.split()` on runs of whitespace (the SEARCH
 * answer), together with the joins that undo them.
 */
module Strings {
  import opened Wrappers

  /** `pat` occurs in `s` starting at index `i`. */
  predicate OccursAt(s: string, pat: string, i: int) {
    0 <= i && i + |pat| <= |s| && s[i..i + |pat|] == pat
  }

  predicate Contains(s: string, pat: string) {
    exists i :: 0 <= i <= |s| && OccursAt(s, pat, i)
  }

  /** The first occurrence of `pat` at or after `from`. */
  function FindFrom(s: string, pat: string, from: nat): (r: Option<nat>)
    decreases |s| - from
    ensures r.Some? ==> from <= r.value && OccursAt(s, pat, r.value)
    ensures r.Some? ==> forall j :: from <= j < r.value ==> !OccursAt(s, pat, j)
    ensures r.None? ==> forall j :: from <= j ==> !OccursAt(s, pat, j)
  {
    if from + |pat| > |s| then None
    else if s[from..from + |pat|] == pat then Some(from)
    else FindFrom(s, pat, from + 1)
  }

  /** The first occurrence of `pat` in `s`, as `s.find(pat)` locates it. */
  function Find(s: string, pat: string): (r: Option<nat>)
    ensures r.Some? <==> Contains(s, pat)
    ensures r.Some? ==> OccursAt(s, pat, r.value)
    ensures r.Some? ==> forall j :: 0 <= j < r.value ==> !OccursAt(s, pat, j)
  {
    FindFrom(s, pat, 0)
  }

  /** `sep.join(parts)`. */
  function Join(parts: seq<string>, sep: string): string {
    if |parts| == 0 then ""
    else if |parts| == 1 then parts[0]
    else parts[0] + sep + Join(parts[1..], sep)
  }

  /**
   * `s.split(sep)`: cut at every occurrence of `sep`, scanning left to right
   * and resuming after each separator found.
   */
  function Split(s: string, sep: string): (parts: seq<string>)
    requires |sep| > 0
    decreases |s|
    ensures |parts| >= 1
    ensures |parts| == 1 <==> !Contains(s, sep)
    ensures Join(parts, sep) == s
    ensures forall k :: 0 <= k < |parts| ==> !Contains(parts[k], sep)
    ensures forall k :: 0 <= k < |parts| - 1 ==> Separated(parts[k], sep)
    ensures Find(s, sep).Some? ==> parts[0] == s[..Find(s, sep).value]
  {
    match Find(s, sep)
    case None => [s]
    case Some(i) =>
      var rest := Split(s[i + |sep|..], sep);
      SplitStep(s, sep, i, rest);
      [s[..i]] + rest
  }

  /** The text before the first occurrence of `sep` does not contain it. */
  lemma NoSeparatorBeforeFirst(s: string, sep: string, i: nat)
    requires |sep| > 0 && Find(s, sep) == Some(i)
    ensures !Contains(s[..i], sep)
  {
    var head := s[..i];
    forall j | 0 <= j <= |head|
      ensures !OccursAt(head, sep, j)
    {
      if j + |sep| <= |head| {
        assert !OccursAt(s, sep, j);
        assert s[j..j + |sep|] == head[j..j + |sep|];
      }
    }
  }

  lemma ThreeCuts(s: string, i: nat, j: nat)
    requires i <= j <= |s|
    ensures s == s[..i] + s[i..j] + s[j..]
  {
  }

  /**
   * One step of `Split`: the text before the first separator, followed by
   * pieces of the text after it, is again a splitting of the whole text.
   */
  lemma SplitStep(s: string, sep: string, i: nat, rest: seq<string>)
    requires |sep| > 0 && Find(s, sep) == Some(i)
    requires |rest| >= 1 && Join(rest, sep) == s[i + |sep|..]
    requires forall k :: 0 <= k < |rest| ==> !Contains(rest[k], sep)
    requires forall k :: 0 <= k < |rest| - 1 ==> Separated(rest[k], sep)
    ensures var parts := [s[..i]] + rest;
            && Join(parts, sep) == s
            && (forall k :: 0 <= k < |parts| ==> !Contains(parts[k], sep))
            && (forall k :: 0 <= k < |parts| - 1 ==> Separated(parts[k], sep))
  {
    NoSeparatorBeforeFirst(s, sep, i);
    JoinAroundSeparator(s, sep, i, rest);
    NoSeparatorInPieces(s[..i], rest, sep);
    HeadSeparated(s, sep, i);
    SeparatedPieces(s[..i], rest, sep);
  }

  /** The text before the first separator ends exactly where that separator starts. */
  lemma HeadSeparated(s: string, sep: string, i: nat)
    requires |sep| > 0 && Find(s, sep) == Some(i)
    ensures Separated(s[..i], sep)
  {
    assert s[..i] + sep == s[..i + |sep|];
    FindInPrefix(s, sep, i, i + |sep|);
  }

  /** A prefix that still holds the first separator finds it at the same place. */
  lemma FindInPrefix(s: string, sep: string, i: nat, n: nat)
    requires Find(s, sep) == Some(i) && i + |sep| <= n <= |s|
    ensures Find(s[..n], sep) == Some(i)
  {
    var t := s[..n];
    assert t[i..i + |sep|] == s[i..i + |sep|];
    assert OccursAt(t, sep, i);
    var v := Find(t, sep).value;
    assert v <= i;
    assert t[v..v + |sep|] == s[v..v + |sep|];
    assert OccursAt(s, sep, v);
  }

  lemma SeparatedPieces(head: string, rest: seq<string>, sep: string)
    requires Separated(head, sep)
    requires forall k :: 0 <= k < |rest| - 1 ==> Separated(rest[k], sep)
    ensures var parts := [head] + rest;
            forall k :: 0 <= k < |parts| - 1 ==> Separated(parts[k], sep)
  {
    var parts := [head] + rest;
    forall k | 0 <= k < |parts| - 1
      ensures Separated(parts[k], sep)
    {
      if k > 0 {
        assert parts[k] == rest[k - 1];
      }
    }
  }

  lemma NoSeparatorInPieces(head: string, rest: seq<string>, sep: string)
    requires !Contains(head, sep)
    requires forall k :: 0 <= k < |rest| ==> !Contains(rest[k], sep)
    ensures var parts := [head] + rest;
            forall k :: 0 <= k < |parts| ==> !Contains(parts[k], sep)
  {
    var parts := [head] + rest;
    forall k | 0 <= k < |parts|
      ensures !Contains(parts[k], sep)
    {
      if k > 0 {
        assert parts[k] == rest[k - 1];
      }
    }
  }

  lemma JoinAroundSeparator(s: string, sep: string, i: nat, rest: seq<string>)
    requires OccursAt(s, sep, i)
    requires |rest| >= 1 && Join(rest, sep) == s[i + |sep|..]
    ensures Join([s[..i]] + rest, sep) == s
  {
    JoinCons(s[..i], rest, sep);
    ThreeCuts(s, i, i + |sep|);
  }

  /** A piece that ends exactly where the separator written after it starts. */
  predicate Separated(p: string, sep: string) {
    Find(p + sep, sep) == Some(|p|)
  }

  lemma SeparatedHasNoSeparator(p: string, sep: string)
    requires |sep| > 0 && Separated(p, sep)
    ensures !Contains(p, sep)
  {
    forall j | OccursAt(p, sep, j)
      ensures false
    {
      assert (p + sep)[j..j + |sep|] == p[j..j + |sep|];
      assert OccursAt(p + sep, sep, j);
    }
  }

  /** The first separator in `p + sep + tail` is the one written after `p`. */
  lemma FindAfterSeparated(p: string, sep: string, tail: string)
    requires Separated(p, sep)
    ensures Find(p + sep + tail, sep) == Some(|p|)
  {
    var s := p + sep + tail;
    assert s[|p|..|p| + |sep|] == sep;
    assert OccursAt(s, sep, |p|);
    forall j | 0 <= j < |p| && OccursAt(s, sep, j)
      ensures false
    {
      assert s[j..j + |sep|] == (p + sep)[j..j + |sep|];
      assert OccursAt(p + sep, sep, j);
    }
  }

  /** Splitting `p + sep + tail` yields `p` followed by the split of `tail`. */
  lemma SplitAfterSeparated(p: string, sep: string, tail: string)
    requires |sep| > 0 && Separated(p, sep)
    ensures Split(p + sep + tail, sep) == [p] + Split(tail, sep)
  {
    var s := p + sep + tail;
    FindAfterSeparated(p, sep, tail);
    assert s[..|p|] == p;
    assert s[|p| + |sep|..] == tail;
  }

  lemma JoinCons(p: string, rest: seq<string>, sep: string)
    requires |rest| >= 1
    ensures Join([p] + rest, sep) == p + sep + Join(rest, sep)
  {
    assert ([p] + rest)[1..] == rest;
  }

  lemma JoinFour(a: string, b: string, c: string, d: string, sep: string)
    ensures Join([a, b, c, d], sep) == a + sep + b + sep + c + sep + d
  {
    JoinCons(c, [d], sep);
    JoinCons(b, [c, d], sep);
    JoinCons(a, [b, c, d], sep);
    assert [a, b, c, d] == [a] + [b, c, d];
    assert [b, c, d] == [b] + [c, d];
    assert [c, d] == [c] + [d];
  }

  /** With every piece separated, `split` undoes `join`. */
  lemma {:induction false} SplitJoin(parts: seq<string>, sep: string)
    requires |sep| > 0 && |parts| >= 1
    requires forall k :: 0 <= k < |parts| ==> Separated(parts[k], sep)
    ensures Split(Join(parts, sep), sep) == parts
  {
    if |parts| == 1 {
      SeparatedHasNoSeparator(parts[0], sep);
    } else {
      SplitJoin(parts[1..], sep);
      SplitAfterSeparated(parts[0], sep, Join(parts[1..], sep));
      assert [parts[0]] + parts[1..] == parts;
    }
  }

  /** For a one-character separator, a piece is separated iff it lacks that character. */
  lemma SeparatedByChar(p: string, c: char)
    ensures Separated(p, [c]) <==> c !in p
  {
    var s := p + [c];
    assert OccursAt(s, [c], |p|);
    if c in p {
      var j :| 0 <= j < |p| && p[j] == c;
      assert s[j..j + 1] == [c];
      assert OccursAt(s, [c], j);
    } else {
      forall j | 0 <= j < |p|
        ensures !OccursAt(s, [c], j)
      {
        assert s[j..j + 1][0] == p[j];
      }
    }
  }

  /** The characters Python's `str.split()` treats as whitespace. */
  predicate IsSpace(c: char) {
    c == ' ' || c == '\t' || c == '\n' || c == '\r' || c == '\U{000B}' || c == '\U{000C}'
  }

  /** A token `str.split()` can return: non-empty, no whitespace. */
  predicate IsWord(w: string) {
    |w| > 0 && forall i :: 0 <= i < |w| ==> !IsSpace(w[i])
  }

  /** Length of the longest whitespace-free prefix of `s`. */
  function WordLength(s: string): (n: nat)
    ensures n <= |s|
    ensures forall i :: 0 <= i < n ==> !IsSpace(s[i])
    ensures n < |s| ==> IsSpace(s[n])
  {
    if |s| == 0 || IsSpace(s[0]) then 0 else 1 + WordLength(s[1..])
  }

  /** `s.split()`: the maximal whitespace-free runs of `s`, in order. */
  function Words(s: string): (ws: seq<string>)
    decreases |s|
    ensures forall k :: 0 <= k < |ws| ==> IsWord(ws[k])
    ensures ws == [] <==> forall i :: 0 <= i < |s| ==> IsSpace(s[i])
  {
    if |s| == 0 then []
    else if IsSpace(s[0]) then
      assert forall i :: 1 <= i < |s| ==> s[i] == s[1..][i - 1];
      Words(s[1..])
    else
      var n := WordLength(s);
      [s[..n]] + Words(s[n..])
  }

  lemma WordsOfWord(w: string, tail: string)
    requires IsWord(w)
    requires |tail| > 0 ==> IsSpace(tail[0])
    ensures Words(w + tail) == [w] + Words(tail)
  {
    var s := w + tail;
    assert s[|w|..] == tail;
    assert s[..|w|] == w;
    assert WordLength(s) == |w|;
  }

  /** Words written with single spaces between them are read back unchanged. */
  lemma {:induction false} WordsOfJoin(ws: seq<string>)
    requires forall k :: 0 <= k < |ws| ==> IsWord(ws[k])
    ensures Words(Join(ws, " ")) == ws
  {
    if |ws| == 1 {
      WordsOfWord(ws[0], "");
      assert ws[0] + "" == ws[0];
    } else if |ws| > 1 {
      var rest := Join(ws[1..], " ");
      WordsOfJoin(ws[1..]);
      assert ws[0] + " " + rest == ws[0] + (" " + rest);
      WordsOfWord(ws[0], " " + rest);
      assert (" " + rest)[1..] == rest;
      assert [ws[0]] + ws[1..] == ws;
    }
  }

  /**
   * `s` cut at every whitespace character, keeping the empty pieces between
   * adjacent ones: the reference `str.split()` is checked against.
   */
  function Cuts(s: string): (ps: seq<string>)
    ensures |ps| >= 1
  {
    if |s| == 0 then [""]
    else
      var rest := Cuts(s[1..]);
      if IsSpace(s[0]) then [""] + rest
      else [[s[0]] + rest[0]] + rest[1..]
  }

  /** The non-empty pieces, in order. */
  function NonEmpty(ps: seq<string>): (qs: seq<string>)
    ensures forall k :: 0 <= k < |qs| ==> |qs[k]| > 0
  {
    if |ps| == 0 then []
    else if ps[0] == "" then NonEmpty(ps[1..])
    else [ps[0]] + NonEmpty(ps[1..])
  }

  /** A whitespace-free prefix joins the first piece of what follows it. */
  lemma {:induction false} CutsAfterPrefix(w: string, t: string)
    requires forall i :: 0 <= i < |w| ==> !IsSpace(w[i])
    ensures Cuts(w + t) == [w + Cuts(t)[0]] + Cuts(t)[1..]
    decreases |w|
  {
    if |w| == 0 {
      assert w + t == t;
      assert w + Cuts(t)[0] == Cuts(t)[0];
      assert [Cuts(t)[0]] + Cuts(t)[1..] == Cuts(t);
    } else {
      var c := Cuts(t);
      assert (w + t)[0] == w[0] && (w + t)[1..] == w[1..] + t;
      CutsAfterPrefix(w[1..], t);
      var r := Cuts(w[1..] + t);
      assert r[0] == w[1..] + c[0] && r[1..] == c[1..];
      assert Cuts(w + t) == [[w[0]] + r[0]] + r[1..];
      assert [w[0]] + (w[1..] + c[0]) == w + c[0];
    }
  }

  /**
   * `str.split()` is splitting at every whitespace character and dropping
   * the empty pieces.
   */
  lemma {:induction false} WordsAreNonEmptyCuts(s: string)
    ensures Words(s) == NonEmpty(Cuts(s))
    decreases |s|
  {
    if |s| > 0 {
      if IsSpace(s[0]) {
        WordsAreNonEmptyCuts(s[1..]);
        assert ([""] + Cuts(s[1..]))[1..] == Cuts(s[1..]);
      } else {
        var n := WordLength(s);
        var t := s[n..];
        WordsAreNonEmptyCuts(t);
        assert s == s[..n] + t;
        CutsAfterPrefix(s[..n], t);
        assert Cuts(t)[0] == "" by {
          if |t| > 0 {
            assert IsSpace(t[0]);
            assert ([""] + Cuts(t[1..]))[0] == "";
          }
        }
        var ps := Cuts(s);
        assert ps[0] == s[..n] && ps[1..] == Cuts(t)[1..];
        assert NonEmpty(Cuts(t)) == NonEmpty(Cuts(t)[1..]);
      }
    }
  }

  /**
   * `gaps[0] + ws[0] + gaps[1] + ... + ws[m - 1] + gaps[m]`: words with
   * whitespace around and between them.
   */
  function Spaced(ws: seq<string>, gaps: seq<string>): string
    requires |gaps| == |ws| + 1
  {
    if |ws| == 0 then gaps[0]
    else gaps[0] + ws[0] + Spaced(ws[1..], gaps[1..])
  }

  predicate AllSpace(g: string) {
    forall i :: 0 <= i < |g| ==> IsSpace(g[i])
  }

  lemma {:induction false} WordsAfterSpace(g: string, t: string)
    requires AllSpace(g)
    ensures Words(g + t) == Words(t)
    decreases |g|
  {
    if |g| == 0 {
      assert g + t == t;
    } else {
      assert (g + t)[0] == g[0];
      assert (g + t)[1..] == g[1..] + t;
      WordsAfterSpace(g[1..], t);
    }
  }

  /**
   * Words read back unchanged and in order whatever whitespace surrounds
   * them, as long as consecutive words are separated by some.
   */
  lemma {:induction false} WordsOfSpaced(ws: seq<string>, gaps: seq<string>)
    requires |gaps| == |ws| + 1
    requires forall k :: 0 <= k < |ws| ==> IsWord(ws[k])
    requires forall k :: 0 <= k < |gaps| ==> AllSpace(gaps[k])
    requires forall k :: 0 < k < |ws| ==> |gaps[k]| > 0
    ensures Words(Spaced(ws, gaps)) == ws
    decreases |ws|
  {
    if |ws| == 0 {
      assert Words(gaps[0]) == [];
    } else {
      var tail := Spaced(ws[1..], gaps[1..]);
      WordsOfSpaced(ws[1..], gaps[1..]);
      if |ws| > 1 {
        assert tail == gaps[1] + ws[1] + Spaced(ws[2..], gaps[2..]);
        assert tail[0] == gaps[1][0];
      } else {
        assert tail == gaps[1];
      }
      WordsOfWord(ws[0], tail);
      WordsAfterSpace(gaps[0], ws[0] + tail);
      assert gaps[0] + ws[0] + tail == gaps[0] + (ws[0] + tail);
      assert [ws[0]] + ws[1..] == ws;
    }
  }
}
