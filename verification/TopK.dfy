/** Choosing the best file suggestions from a stream (pkg/suggestion/suggestion.go: scoredEntryHeap, the loop of
    fetchFileSuggestions). */
module TopK {
  import opened Wrappers

  const MAX_SUGGESTIONS: nat := 50

  /** A directory entry, or a failure to read one; the fuzzy-match score of a name is arbitrary. */
  datatype DirEntry = DirEntry(fileName: string, matchScore: int) | ReadError

  datatype ScoredEntry = ScoredEntry(fileName: string, score: int)

  /** scoredEntryHeap.Less: a is worse than b. */
  predicate Less(a: ScoredEntry, b: ScoredEntry) {
    if a.score != b.score then a.score < b.score else |a.fileName| > |b.fileName|
  }

  /** Best first */
  predicate Sorted(s: seq<ScoredEntry>) {
    forall i, j :: 0 <= i < j < |s| ==> !Less(s[i], s[j])
  }

  // ---------------------------------------------------------------- what the loop should keep

  /** The entries that count, with their scores: matches only, or by position without a search term. */
  function Candidates(entries: seq<DirEntry>, search: bool, index: nat): seq<ScoredEntry>
    requires ReadError !in entries
  {
    if entries == [] then []
    else
      var e := entries[0];
      assert e in entries;
      var rest := Candidates(entries[1..], search, index + 1);
      if search && e.matchScore <= 0 then rest
      else [ScoredEntry(e.fileName, if search then e.matchScore else MAX_SUGGESTIONS - index)] + rest
  }

  /** kept is a choice of the k best of all. */
  ghost predicate IsTop(all: multiset<ScoredEntry>, k: nat, kept: multiset<ScoredEntry>) {
    && kept <= all
    && |kept| == (if |all| < k then |all| else k)
    && forall x, y :: x in all - kept && y in kept ==> !Less(y, x)
  }

  lemma {:induction false} TopRoom(all: multiset<ScoredEntry>, k: nat, kept: multiset<ScoredEntry>, x: ScoredEntry)
    requires IsTop(all, k, kept) && |kept| < k
    ensures IsTop(all + multiset{x}, k, kept + multiset{x})
  {
    SameSize(all, kept);
    assert all + multiset{x} - (kept + multiset{x}) == multiset{};
  }

  lemma SameSize(all: multiset<ScoredEntry>, kept: multiset<ScoredEntry>)
    requires kept <= all && |kept| == |all|
    ensures kept == all
  {
    assert all == kept + (all - kept);
    assert |all - kept| == 0;
  }

  /** The worst one kept gives way to a better one, and to no other. */
  lemma {:induction false} TopFull(all: multiset<ScoredEntry>, k: nat, kept: multiset<ScoredEntry>, worst: ScoredEntry,
                                   x: ScoredEntry)
    requires IsTop(all, k, kept) && |kept| == k && worst in kept && forall y :: y in kept ==> !Less(y, worst)
    ensures Less(worst, x) ==> IsTop(all + multiset{x}, k, kept - multiset{worst} + multiset{x})
    ensures !Less(worst, x) ==> IsTop(all + multiset{x}, k, kept)
  {
    if Less(worst, x) {
      var kept' := kept - multiset{worst} + multiset{x};
      assert all + multiset{x} - kept' == all - kept + multiset{worst};
    } else {
      assert all + multiset{x} - kept == all - kept + multiset{x};
    }
  }

  // ---------------------------------------------------------------- heap and sort

  /** The heap as container/heap keeps it, as far as its users rely on it: the worst entry is the first. */
  predicate WorstFirst(h: seq<ScoredEntry>) {
    forall i :: 0 < i < |h| ==> !Less(h[i], h[0])
  }

  /** heap.Push */
  function Push(h: seq<ScoredEntry>, x: ScoredEntry): (h': seq<ScoredEntry>)
    requires WorstFirst(h)
    ensures WorstFirst(h') && multiset(h') == multiset(h) + multiset{x}
  {
    if h != [] && Less(x, h[0]) then [x] + h else h + [x]
  }

  /** heap.Pop, without the popped entry */
  function Pop(h: seq<ScoredEntry>): (h': seq<ScoredEntry>)
    requires WorstFirst(h) && h != []
    ensures WorstFirst(h') && multiset(h') == multiset(h) - multiset{h[0]}
  {
    assert h == [h[0]] + h[1..];
    if |h| == 1 then []
    else
      var m := WorstAt(h[1..]);
      var t := h[1..];
      assert t == t[..m] + [t[m]] + t[m + 1..];
      [t[m]] + t[..m] + t[m + 1..]
  }

  function WorstAt(s: seq<ScoredEntry>): (m: nat)
    requires s != []
    ensures m < |s| && forall i :: 0 <= i < |s| ==> !Less(s[i], s[m])
  {
    if |s| == 1 then 0
    else
      var m := WorstAt(s[1..]);
      assert forall i :: 0 < i < |s| ==> s[i] == s[1..][i - 1];
      if Less(s[0], s[m + 1]) then 0 else m + 1
  }

  /** sort.Slice, best first */
  method SortSlice(h: seq<ScoredEntry>) returns (s: seq<ScoredEntry>)
    ensures Sorted(s) && multiset(s) == multiset(h)
  {
    s := [];
    for n := 0 to |h|
      invariant Sorted(s) && multiset(s) == multiset(h[..n])
    {
      s := InsertSorted(s, h[n]);
      assert h[..n + 1] == h[..n] + [h[n]];
    }
    assert h[..|h|] == h;
  }

  function InsertSorted(s: seq<ScoredEntry>, x: ScoredEntry): (r: seq<ScoredEntry>)
    requires Sorted(s)
    ensures Sorted(r) && multiset(r) == multiset(s) + multiset{x}
  {
    if s == [] then [x]
    else if Less(s[0], x) then [x] + s
    else
      var t := InsertSorted(s[1..], x);
      assert multiset(s) == multiset{s[0]} + multiset(s[1..]) by { assert s == [s[0]] + s[1..]; }
      assert forall y :: y in multiset(s[1..]) ==> y in s[1..];
      ConsSorted(s[0], t);
      [s[0]] + t
  }

  lemma ConsSorted(x: ScoredEntry, t: seq<ScoredEntry>)
    requires Sorted(t) && forall y :: y in multiset(t) ==> !Less(x, y)
    ensures Sorted([x] + t) && multiset([x] + t) == multiset{x} + multiset(t)
  {
    assert forall j :: 0 <= j < |t| ==> t[j] in multiset(t);
  }

  // ---------------------------------------------------------------- the loop

  /** The loop over directory entries, and the sort after it. With a search term the result is a true choice of the
      best, in order; without one it is the first entries in directory order. */
  method TopEntries(entries: seq<DirEntry>, search: bool) returns (r: Option<seq<ScoredEntry>>)
    ensures search ==> (r.None? <==> ReadError in entries)
    ensures search && r.Some? ==>
              Sorted(r.value) && IsTop(multiset(Candidates(entries, true, 0)), MAX_SUGGESTIONS, multiset(r.value))
    ensures !search ==> (r.None? <==> ReadError in entries[..FirstFew(entries)])
    ensures !search && r.Some? ==> r.value == Candidates(entries[..FirstFew(entries)], false, 0)
  {
    hide Candidates, WorstFirst, IsTop, Sorted;
    var topHeap := NewHeap(search);
    ghost var seen := 0;
    assert entries[..0] == [];
    for n := 0 to |entries|
      invariant seen == n && ReadError !in entries[..n] && (!search ==> n < MAX_SUGGESTIONS)
      invariant Keeps(entries[..n], search, topHeap)
    {
      var result := entries[n];
      assert entries[..n + 1] == entries[..n] + [result];
      if result.ReadError? {
        return None;
      }
      NextCandidates(entries[..n], result, search);
      if !(search && result.matchScore <= 0) {
        var se := ScoredEntry(result.fileName, if search then result.matchScore else MAX_SUGGESTIONS - n);
        topHeap := Offer(topHeap, se, multiset(Candidates(entries[..n], search, 0)));
      }
      seen := n + 1;
      KeptAll(entries[..seen], search, topHeap);
      if !search && |topHeap| >= MAX_SUGGESTIONS {
        break;
      }
    }
    KeptAll(entries[..seen], search, topHeap);
    assert seen == |entries| ==> entries[..seen] == entries;
    var scoredEntries := SortSlice(topHeap);
    if !search {
      FirstInOrder(entries[..seen], scoredEntries);
    }
    return Some(scoredEntries);
  }

  ghost predicate Keeps(seen: seq<DirEntry>, search: bool, h: seq<ScoredEntry>)
    requires ReadError !in seen
  {
    WorstFirst(h) && IsTop(multiset(Candidates(seen, search, 0)), MAX_SUGGESTIONS, multiset(h))
  }

  method NewHeap(search: bool) returns (h: seq<ScoredEntry>)
    ensures Keeps([], search, h)
  {
    h := [];
  }

  /** The part of the loop that puts an entry on the heap, or in the place of the worst one */
  method Offer(h: seq<ScoredEntry>, se: ScoredEntry, ghost all: multiset<ScoredEntry>) returns (h': seq<ScoredEntry>)
    requires WorstFirst(h) && IsTop(all, MAX_SUGGESTIONS, multiset(h))
    ensures WorstFirst(h') && IsTop(all + multiset{se}, MAX_SUGGESTIONS, multiset(h'))
  {
    hide IsTop;
    KeptAtMost(all, MAX_SUGGESTIONS, multiset(h));
    if |h| < MAX_SUGGESTIONS {
      TopRoom(all, MAX_SUGGESTIONS, multiset(h), se);
      h' := Push(h, se);
    } else {
      var worst := h[0];
      assert forall y :: y in multiset(h) ==> y in h;
      TopFull(all, MAX_SUGGESTIONS, multiset(h), worst, se);
      if se.score > worst.score || (se.score == worst.score && |se.fileName| < |worst.fileName|) {
        h' := Pop(h);
        h' := Push(h', se);
      } else {
        h' := h;
      }
    }
  }

  lemma KeptAtMost(all: multiset<ScoredEntry>, k: nat, kept: multiset<ScoredEntry>)
    requires IsTop(all, k, kept)
    ensures |kept| <= k
  {
  }

  lemma {:induction false} NextCandidate(seen: seq<DirEntry>, e: DirEntry, search: bool, index: nat)
    requires ReadError !in seen && e.DirEntry?
    ensures ReadError !in seen + [e]
    ensures Candidates(seen + [e], search, index) ==
              Candidates(seen, search, index) +
              if search && e.matchScore <= 0 then []
              else [ScoredEntry(e.fileName, if search then e.matchScore else MAX_SUGGESTIONS - (index + |seen|))]
  {
    if seen == [] {
      assert [] + [e] == [e] && [e][1..] == [] && [e][0] == e;
    } else {
      assert (seen + [e])[1..] == seen[1..] + [e] && (seen + [e])[0] == seen[0];
      assert ReadError !in seen[1..];
      NextCandidate(seen[1..], e, search, index + 1);
    }
  }

  lemma NextCandidates(seen: seq<DirEntry>, e: DirEntry, search: bool)
    requires ReadError !in seen && e.DirEntry?
    ensures ReadError !in seen + [e]
    ensures search && e.matchScore <= 0 ==> Candidates(seen + [e], search, 0) == Candidates(seen, search, 0)
    ensures !(search && e.matchScore <= 0) ==>
              multiset(Candidates(seen + [e], search, 0)) ==
              multiset(Candidates(seen, search, 0)) +
              multiset{ScoredEntry(e.fileName, if search then e.matchScore else MAX_SUGGESTIONS - |seen|)}
  {
    hide Candidates;
    NextCandidate(seen, e, search, 0);
    assert Candidates(seen, search, 0) + [] == Candidates(seen, search, 0);
  }

  /** Without a search term nothing is left out, and the heap grows by one with every entry. */
  lemma {:induction false} KeptAll(seen: seq<DirEntry>, search: bool, h: seq<ScoredEntry>)
    requires ReadError !in seen && Keeps(seen, search, h)
    ensures !search && |seen| <= MAX_SUGGESTIONS ==>
              |h| == |seen| && multiset(h) == multiset(Candidates(seen, false, 0))
  {
    if !search && |seen| <= MAX_SUGGESTIONS {
      InDirectoryOrder(seen, 0);
      var all := multiset(Candidates(seen, false, 0));
      assert |all| == |seen| && |multiset(h)| == |h|;
      SameSize(all, multiset(h));
    }
  }

  lemma {:induction false} InDirectoryOrder(seen: seq<DirEntry>, index: nat)
    requires ReadError !in seen
    ensures var c := Candidates(seen, false, index);
            |c| == |seen| && forall i :: 0 <= i < |c| ==> c[i].score == MAX_SUGGESTIONS - index - i
  {
    if seen != [] {
      assert ReadError !in seen[1..];
      InDirectoryOrder(seen[1..], index + 1);
    }
  }

  /** Sorting the entries scored by position puts them in directory order. */
  lemma {:induction false} FirstInOrder(seen: seq<DirEntry>, sorted: seq<ScoredEntry>)
    requires ReadError !in seen && Sorted(sorted) && multiset(sorted) == multiset(Candidates(seen, false, 0))
    ensures sorted == Candidates(seen, false, 0)
  {
    InDirectoryOrder(seen, 0);
    SortedUnique(sorted, Candidates(seen, false, 0));
  }

  lemma {:induction false} SortedUnique(s: seq<ScoredEntry>, t: seq<ScoredEntry>)
    requires Sorted(s) && multiset(s) == multiset(t) && forall i, j :: 0 <= i < j < |t| ==> t[i].score > t[j].score
    ensures s == t
    decreases |t|
  {
    assert |s| == |multiset(s)| == |multiset(t)| == |t|;
    if t != [] {
      BestFirst(s, t);
      assert s == [s[0]] + s[1..] && t == [t[0]] + t[1..];
      assert multiset(s[1..]) == multiset(s) - multiset{s[0]} && multiset(t[1..]) == multiset(t) - multiset{t[0]};
      SortedUnique(s[1..], t[1..]);
    }
  }

  lemma BestFirst(s: seq<ScoredEntry>, t: seq<ScoredEntry>)
    requires Sorted(s) && multiset(s) == multiset(t) && forall i, j :: 0 <= i < j < |t| ==> t[i].score > t[j].score
    requires s != [] && t != []
    ensures s[0] == t[0]
  {
    assert s[0] in multiset(t) && t[0] in multiset(s);
    var i :| 0 <= i < |t| && t[i] == s[0];
    var j :| 0 <= j < |s| && s[j] == t[0];
    assert j > 0 ==> !Less(s[0], s[j]);
  }

  /** How many entries are read without a search term */
  function FirstFew(entries: seq<DirEntry>): nat {
    if |entries| < MAX_SUGGESTIONS then |entries| else MAX_SUGGESTIONS
  }

  // ---------------------------------------------------------------- what the suggestions are

  /** The entries that match, with their scores; without a search term all are candidates, best first. */
  lemma {:induction false} CandidatesAre(entries: seq<DirEntry>, search: bool, index: nat)
    requires ReadError !in entries
    ensures search ==> forall x :: x in Candidates(entries, true, index) <==>
      exists i :: 0 <= i < |entries| && entries[i] == DirEntry(x.fileName, x.score) && x.score > 0
    ensures !search ==> |Candidates(entries, false, index)| == |entries|
    ensures !search ==> forall i :: 0 <= i < |entries| ==>
      Candidates(entries, false, index)[i].fileName == entries[i].fileName
  {
    if entries != [] {
      assert entries == [entries[0]] + entries[1..];
      CandidatesAre(entries[1..], search, index + 1);
      if search {
        var c, rest := Candidates(entries, true, index), Candidates(entries[1..], true, index + 1);
        forall x
          ensures x in c <==>
            exists i :: 0 <= i < |entries| && entries[i] == DirEntry(x.fileName, x.score) && x.score > 0
        {
          if x in rest {
            var i :| 0 <= i < |entries[1..]| && entries[1..][i] == DirEntry(x.fileName, x.score) && x.score > 0;
            assert entries[i + 1] == DirEntry(x.fileName, x.score);
          }
          if i :| 0 <= i < |entries| && entries[i] == DirEntry(x.fileName, x.score) && x.score > 0 {
            if i > 0 {
              assert entries[1..][i - 1] == DirEntry(x.fileName, x.score);
            }
          }
        }
      }
    }
  }

  /** The best matches: higher scores come first, and shorter names among equal ones; and an entry that is left out
      gives way to 50 that are not worse. */
  lemma {:induction false} BestMatches(entries: seq<DirEntry>, s: seq<ScoredEntry>, e: DirEntry)
    requires ReadError !in entries && e in entries && e.matchScore > 0
    requires Sorted(s) && IsTop(multiset(Candidates(entries, true, 0)), MAX_SUGGESTIONS, multiset(s))
    ensures |s| <= 50 && forall i, j :: 0 <= i < j < |s| ==>
      s[i].score > s[j].score || (s[i].score == s[j].score && |s[i].fileName| <= |s[j].fileName|)
    ensures forall i :: 0 <= i < |s| ==> s[i].score > 0 && DirEntry(s[i].fileName, s[i].score) in entries
    ensures ScoredEntry(e.fileName, e.matchScore) !in s ==> |s| == 50 && forall i :: 0 <= i < 50 ==>
      s[i].score > e.matchScore || (s[i].score == e.matchScore && |s[i].fileName| <= |e.fileName|)
  {
    var all, x := multiset(Candidates(entries, true, 0)), ScoredEntry(e.fileName, e.matchScore);
    CandidatesAre(entries, true, 0);
    assert |multiset(s)| == |s|;
    forall i | 0 <= i < |s|
      ensures s[i] in Candidates(entries, true, 0)
    {
      assert s[i] in multiset(s);
    }
    assert x in Candidates(entries, true, 0);
    if x !in s {
      assert x in all - multiset(s);
      if |all| <= 50 {
        SameSize(all, multiset(s));
      }
      forall i | 0 <= i < |s|
        ensures !Less(s[i], x)
      {
        assert s[i] in multiset(s);
      }
    }
  }
}
