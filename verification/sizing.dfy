/**
 * Per-folder statistics: `folder_size` in imapdu.py. SELECT the folder
 * read-only, take its EXISTS count; when that is positive, SEARCH ALL, build
 * the range `lo:hi` from the smallest and largest message number found, FETCH
 * RFC822.SIZE over that range, and add up and take the largest of the sizes.
 */
module Sizing {
  import opened Wrappers
  import opened Decimal
  import opened Strings
  import opened Imap

  /** Message count, total size and largest size of one folder. */
  datatype Stats = Stats(count: nat, total: nat, biggest: nat)

  /** The FETCH data item the program asks for. */
  const SizeItems: string := "(RFC822.SIZE)"

  predicate Sorted(s: seq<nat>) {
    forall i, j :: 0 <= i < j < |s| ==> s[i] <= s[j]
  }

  function Insert(x: nat, s: seq<nat>): (r: seq<nat>)
    requires Sorted(s)
    ensures Sorted(r)
    ensures multiset(r) == multiset(s) + multiset{x}
  {
    if |s| == 0 then [x]
    else if x <= s[0] then
      SortedCons(x, s);
      [x] + s
    else
      SortedTail(s);
      var tail := Insert(x, s[1..]);
      assert s == [s[0]] + s[1..];
      BoundOfPermutation(s[0], tail, s[1..], x);
      SortedCons(s[0], tail);
      [s[0]] + tail
  }

  /** The tail of a sorted sequence is sorted and bounded below by its head. */
  lemma SortedTail(s: seq<nat>)
    requires |s| > 0 && Sorted(s)
    ensures Sorted(s[1..])
    ensures forall k :: 0 <= k < |s[1..]| ==> s[0] <= s[1..][k]
  {
  }

  /** An element no larger than the head of a sorted sequence can go in front. */
  lemma SortedCons(b: nat, t: seq<nat>)
    requires Sorted(t) && (|t| > 0 ==> b <= t[0])
    ensures Sorted([b] + t)
  {
    var r := [b] + t;
    forall i, j | 0 <= i < j < |r|
      ensures r[i] <= r[j]
    {
      if i == 0 {
        assert r[j] == t[j - 1];
        assert t[0] <= t[j - 1];
      } else {
        assert r[i] == t[i - 1] && r[j] == t[j - 1];
      }
    }
  }

  /** A lower bound of `s` and of `x` bounds every permutation of `s + [x]`. */
  lemma BoundOfPermutation(b: nat, t: seq<nat>, s: seq<nat>, x: nat)
    requires multiset(t) == multiset(s) + multiset{x}
    requires b <= x && forall k :: 0 <= k < |s| ==> b <= s[k]
    ensures forall k :: 0 <= k < |t| ==> b <= t[k]
  {
    forall k | 0 <= k < |t|
      ensures b <= t[k]
    {
      assert t[k] in multiset(t);
      if t[k] != x {
        assert t[k] in multiset(s);
      }
    }
  }

  /** `list.sort()` on the message numbers: an ascending permutation. */
  function Sort(s: seq<nat>): (r: seq<nat>)
    ensures Sorted(r)
    ensures multiset(r) == multiset(s)
  {
    if |s| == 0 then []
    else
      assert s == [s[0]] + s[1..];
      Insert(s[0], Sort(s[1..]))
  }

  function Min(s: seq<nat>): (m: nat)
    requires |s| > 0
    ensures m in s
    ensures forall i :: 0 <= i < |s| ==> m <= s[i]
  {
    if |s| == 1 then s[0]
    else
      var rest := Min(s[1..]);
      if s[0] <= rest then s[0] else rest
  }

  /** Python's `max`: the largest element, which is one of the elements. */
  function Max(s: seq<nat>): (m: nat)
    requires |s| > 0
    ensures m in s
    ensures forall i :: 0 <= i < |s| ==> s[i] <= m
  {
    if |s| == 1 then s[0]
    else
      var rest := Max(s[1..]);
      if s[0] >= rest then s[0] else rest
  }

  /** Python's `sum`. */
  function Sum(s: seq<nat>): nat {
    if |s| == 0 then 0 else s[0] + Sum(s[1..])
  }

  /** Every size is at most the total, and the total is 0 only when every size is. */
  lemma {:induction false} SumBounds(s: seq<nat>)
    ensures forall i :: 0 <= i < |s| ==> s[i] <= Sum(s)
    ensures Sum(s) == 0 <==> forall i :: 0 <= i < |s| ==> s[i] == 0
  {
    if |s| > 0 {
      SumBounds(s[1..]);
      assert forall i :: 1 <= i < |s| ==> s[i] == s[1..][i - 1];
    }
  }

  /** Every size counts once in the total, so none exceeds it. */
  lemma {:induction false} MaxAtMostSum(s: seq<nat>)
    requires |s| > 0
    ensures Max(s) <= Sum(s)
  {
    if |s| > 1 {
      MaxAtMostSum(s[1..]);
    }
  }

  /** The sorted numbers start at the minimum and end at the maximum. */
  lemma SortEnds(s: seq<nat>)
    requires |s| > 0
    ensures |Sort(s)| == |s|
    ensures Sort(s)[0] == Min(s)
    ensures Sort(s)[|s| - 1] == Max(s)
  {
    MinMaxOfPermutation(s, Sort(s));
    SortedEnds(Sort(s));
  }

  /** In ascending order the first element is the minimum and the last the maximum. */
  lemma SortedEnds(r: seq<nat>)
    requires |r| > 0 && Sorted(r)
    ensures r[0] == Min(r) && r[|r| - 1] == Max(r)
  {
    SortedFirst(r);
    SortedLast(r);
  }

  lemma SortedFirst(r: seq<nat>)
    requires |r| > 0 && Sorted(r)
    ensures r[0] == Min(r)
  {
    var i :| 0 <= i < |r| && r[i] == Min(r);
    if i > 0 {
      assert r[0] <= r[i];
    }
  }

  lemma SortedLast(r: seq<nat>)
    requires |r| > 0 && Sorted(r)
    ensures r[|r| - 1] == Max(r)
  {
    var j :| 0 <= j < |r| && r[j] == Max(r);
    if j < |r| - 1 {
      assert r[j] <= r[|r| - 1];
    }
  }

  /** Permuted sequences have the same minimum and maximum. */
  lemma MinMaxOfPermutation(a: seq<nat>, b: seq<nat>)
    requires |a| > 0 && multiset(a) == multiset(b)
    ensures |b| > 0 && Min(a) == Min(b) && Max(a) == Max(b)
  {
    assert |a| == |multiset(a)| == |multiset(b)| == |b|;
    assert Min(a) in multiset(b) && Max(a) in multiset(b);
    assert Min(b) in multiset(a) && Max(b) in multiset(a);
  }

  /**
   * The FETCH message set `"%d:%d" % (ids[0], ids[-1])` after sorting: the
   * span from the smallest to the largest number SEARCH returned
   * (RFC 3501 section 9, `seq-range`). Numbers in between that SEARCH did not
   * return are inside the span too.
   */
  function MessageSet(ids: seq<nat>): (messageSet: string)
    requires |ids| > 0
    ensures messageSet == Show(Min(ids)) + ":" + Show(Max(ids))
  {
    var sorted := Sort(ids);
    SortEnds(ids);
    Show(sorted[0]) + ":" + Show(sorted[|sorted| - 1])
  }

  /** The message set does not depend on the order SEARCH lists the numbers in. */
  lemma MessageSetIgnoresOrder(a: seq<nat>, b: seq<nat>)
    requires |a| > 0 && multiset(a) == multiset(b)
    ensures |b| > 0 && MessageSet(a) == MessageSet(b)
  {
    MinMaxOfPermutation(a, b);
  }

  /** A SEARCH payload whose every token `int()` reads as a plain digit run. */
  predicate IdsReadable(text: string) {
    forall k :: 0 <= k < |Words(text)| ==> IsDigits(Words(text)[k])
  }

  /** `[int(i) for i in text.split()]`. */
  function SearchIds(text: string): (ids: seq<nat>)
    requires IdsReadable(text)
    ensures |ids| == |Words(text)|
    ensures forall k :: 0 <= k < |ids| && IsCanonical(Words(text)[k]) ==> Show(ids[k]) == Words(text)[k]
  {
    var ws := Words(text);
    var ids := seq(|ws|, k requires 0 <= k < |ws| => Value(ws[k]));
    assert forall k :: 0 <= k < |ids| && IsCanonical(ws[k]) ==> Show(ids[k]) == ws[k] by {
      forall k | 0 <= k < |ids| && IsCanonical(ws[k])
        ensures Show(ids[k]) == ws[k]
      {
        ShowOfValue(ws[k]);
      }
    }
    ids
  }

  /** The SEARCH payload a server writes for the numbers `ids`. */
  function SearchText(ids: seq<nat>): string {
    Join(seq(|ids|, k requires 0 <= k < |ids| => Show(ids[k])), " ")
  }

  /** The program reads back exactly the numbers the server wrote. */
  lemma SearchIdsOfSearchText(ids: seq<nat>)
    ensures IdsReadable(SearchText(ids))
    ensures SearchIds(SearchText(ids)) == ids
  {
    var shown := seq(|ids|, k requires 0 <= k < |ids| => Show(ids[k]));
    WordsOfJoin(shown);
    forall k | 0 <= k < |ids|
      ensures Value(shown[k]) == ids[k]
    {
      ValueOfShow(ids[k]);
    }
  }

  /** `[int(exp.search(x).group(1)) for x in result]`. */
  function Sizes(lines: seq<string>): (sizes: seq<nat>)
    requires forall k :: 0 <= k < |lines| ==> IsSizeLine(lines[k])
    ensures |sizes| == |lines|
    ensures forall k :: 0 <= k < |lines| ==> sizes[k] == SizeOf(lines[k])
  {
    seq(|lines|, k requires 0 <= k < |lines| => SizeOf(lines[k]))
  }

  /** The FETCH answer lines a server writes for messages `msgs` of sizes `sizes`. */
  function FetchLines(msgs: seq<nat>, sizes: seq<nat>): seq<string>
    requires |msgs| == |sizes|
  {
    seq(|sizes|, k requires 0 <= k < |sizes| => SizeLine(Show(msgs[k]), Show(sizes[k])))
  }

  /** The program reads back exactly the sizes the server wrote. */
  lemma SizesOfFetchLines(msgs: seq<nat>, sizes: seq<nat>)
    requires |msgs| == |sizes|
    ensures forall k :: 0 <= k < |sizes| ==> IsSizeLine(FetchLines(msgs, sizes)[k])
    ensures Sizes(FetchLines(msgs, sizes)) == sizes
  {
    forall k | 0 <= k < |sizes|
      ensures IsSizeLine(FetchLines(msgs, sizes)[k]) && SizeOf(FetchLines(msgs, sizes)[k]) == sizes[k]
    {
      SizeOfSizeLine(msgs[k], sizes[k]);
    }
  }

  /** The server's answer to the read-only SELECT of `folder`. */
  function Selected(server: Server, folder: string): Response {
    server(Select(folder, true))
  }

  /** The server's answer to SEARCH ALL while `folder` is selected. */
  function Searched(server: Server, folder: string): Response {
    server(Search(folder, "ALL"))
  }

  /** A SEARCH answer from which a message set can be built. */
  predicate SearchReadable(searched: Response) {
    |searched.data| > 0 && IdsReadable(searched.data[0]) && |Words(searched.data[0])| > 0
  }

  /** The FETCH the program sends after a successful SEARCH. */
  function FetchCommand(folder: string, searched: Response): Command
    requires SearchReadable(searched)
  {
    Fetch(folder, MessageSet(SearchIds(searched.data[0])), SizeItems)
  }

  /** A FETCH answer whose sizes can be read and whose `max` exists. */
  predicate FetchHandled(fetched: Response) {
    Ok(fetched) ==> |fetched.data| > 0 && forall k :: 0 <= k < |fetched.data| ==> IsSizeLine(fetched.data[k])
  }

  /** A SEARCH answer that neither `ids[0]` nor the FETCH that follows makes crash. */
  predicate SearchHandled(server: Server, folder: string) {
    var searched := Searched(server, folder);
    Ok(searched) ==> SearchReadable(searched) && FetchHandled(server(FetchCommand(folder, searched)))
  }

  /** The answers on which `folder_size` returns instead of raising. */
  predicate Handled(server: Server, folder: string) {
    var selected := Selected(server, folder);
    Ok(selected) ==>
      && |selected.data| > 0
      && IsDigits(selected.data[0])
      && (Value(selected.data[0]) > 0 ==> SearchHandled(server, folder))
  }

  /** The EXISTS count SELECT reports. */
  function Exists(server: Server, folder: string): nat
    requires |Selected(server, folder).data| > 0 && IsDigits(Selected(server, folder).data[0])
  {
    Value(Selected(server, folder).data[0])
  }

  /** Every step the program depends on succeeds, on a non-empty folder. */
  predicate Available(server: Server, folder: string)
    requires Handled(server, folder)
  {
    && Ok(Selected(server, folder))
    && Exists(server, folder) > 0
    && Ok(Searched(server, folder))
    && Ok(server(FetchCommand(folder, Searched(server, folder))))
  }

  /**
   * `folder_size`: statistics exactly when SELECT, SEARCH and FETCH all
   * succeed on a folder SELECT reports as non-empty; otherwise nothing,
   * including the empty folder, where the source falls off the end of the
   * function. The count is the EXISTS count, not the number of FETCH lines.
   */
  function FolderSize(server: Server, folder: string): (r: Option<Stats>)
    requires Handled(server, folder)
    ensures r.Some? <==> Available(server, folder)
    ensures r.Some? ==> r.value.count == Exists(server, folder) > 0
    ensures r.Some? ==>
              var sizes := Sizes(server(FetchCommand(folder, Searched(server, folder))).data);
              && r.value.total == Sum(sizes)
              && r.value.biggest in sizes
              && (forall k :: 0 <= k < |sizes| ==> sizes[k] <= r.value.biggest)
              && r.value.biggest <= r.value.total
  {
    var selected := server(Select(folder, true));
    if !Ok(selected) then None
    else
      var nmsg := Value(selected.data[0]);
      if nmsg == 0 then None
      else
        var searched := server(Search(folder, "ALL"));
        if !Ok(searched) then None
        else
          var msgIds := SearchIds(searched.data[0]);
          var messageSet := MessageSet(msgIds);
          var fetched := server(Fetch(folder, messageSet, SizeItems));
          if !Ok(fetched) then None
          else
            var sizes := Sizes(fetched.data);
            MaxAtMostSum(sizes);
            Some(Stats(nmsg, Sum(sizes), Max(sizes)))
  }

  /**
   * On well-formed answers (SELECT reports a positive count, SEARCH lists
   * some numbers, the FETCH of their range succeeds) the statistics are that
   * count and the sum and maximum of the sizes FETCH returned.
   */
  lemma FolderSizeOfAnswers(server: Server, folder: string, count: nat, ids: seq<nat>,
                            msgs: seq<nat>, sizes: seq<nat>)
    requires count > 0 && |ids| > 0 && |msgs| == |sizes| > 0
    requires Selected(server, folder) == Response("OK", [Show(count)])
    requires Searched(server, folder) == Response("OK", [SearchText(ids)])
    requires server(Fetch(folder, MessageSet(ids), SizeItems)) == Response("OK", FetchLines(msgs, sizes))
    ensures Handled(server, folder)
    ensures FolderSize(server, folder) == Some(Stats(count, Sum(sizes), Max(sizes)))
  {
    ValueOfShow(count);
    SearchIdsOfSearchText(ids);
    var searched := Searched(server, folder);
    assert SearchReadable(searched) by {
      assert |SearchIds(SearchText(ids))| == |ids|;
    }
    assert FetchCommand(folder, searched) == Fetch(folder, MessageSet(ids), SizeItems);
    SizesOfFetchLines(msgs, sizes);
  }

  /** The server as it would be if it answered SEARCH ALL in `folder` with `text`. */
  function AnsweringSearch(server: Server, folder: string, text: string): Server {
    c => if c == Search(folder, "ALL") then Response("OK", [text]) else server(c)
  }

  /**
   * Listing the same message numbers in another order does not change the
   * statistics: the FETCH command sent is the same.
   */
  lemma FolderSizeIgnoresSearchOrder(server: Server, folder: string, text: string)
    requires Handled(server, folder)
    requires Ok(Searched(server, folder)) && SearchReadable(Searched(server, folder))
    requires IdsReadable(text)
    requires multiset(SearchIds(text)) == multiset(SearchIds(Searched(server, folder).data[0]))
    ensures Handled(AnsweringSearch(server, folder, text), folder)
    ensures FolderSize(AnsweringSearch(server, folder, text), folder) == FolderSize(server, folder)
  {
    var other := AnsweringSearch(server, folder, text);
    var original := SearchIds(Searched(server, folder).data[0]);
    MessageSetIgnoresOrder(original, SearchIds(text));
    assert Searched(other, folder) == Response("OK", [text]);
    var fetch := FetchCommand(folder, Searched(server, folder));
    assert FetchCommand(folder, Searched(other, folder)) == fetch;
    assert Selected(other, folder) == Selected(server, folder);
    assert other(fetch) == server(fetch);
  }
}
