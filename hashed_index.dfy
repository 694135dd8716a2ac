/**
 * The inverted index as a hash map from terms to postings lists, with the
 * boolean (intersection) and phrase evaluation of queries over it.
 */
module Hashed {
  import opened Entries
  import opened Postings
  import opened IndexConstants
  import opened Queries

  // ---------------------------------------------------------------------
  // The index as a value: term -> postings list.

  type IndexView = map<string, Snapshot>

  predicate AllConsistent(L: IndexView)
  {
    forall t :: t in L ==> Consistent(L[t])
  }

  predicate AllAscending(L: IndexView)
  {
    forall t :: t in L ==> Ascending(L[t].entries)
  }

  /** insert(token, docID, offset) on the value: the empty token is ignored. */
  function InsertSpec(L: IndexView, token: string, docID: int, offset: int): (r: IndexView)
    requires AllConsistent(L)
    ensures AllConsistent(r)
  {
    if token == "" then L
    else L[token := WithPosition(if token in L then L[token] else Empty, docID, offset)]
  }

  /** The index after the insert calls `ops` (token, docID, offset), from empty. */
  function IndexOf(ops: seq<(string, int, int)>): (r: IndexView)
    ensures AllConsistent(r)
  {
    if ops == [] then map[]
    else
      var last := ops[|ops| - 1];
      InsertSpec(IndexOf(ops[..|ops| - 1]), last.0, last.1, last.2)
  }

  /** The (docID, offset) calls that reached term t's list, in order. */
  function CallsFor(ops: seq<(string, int, int)>, t: string): seq<(int, int)>
  {
    if ops == [] then []
    else
      var last := ops[|ops| - 1];
      CallsFor(ops[..|ops| - 1], t) + (if last.0 == t then [(last.1, last.2)] else [])
  }

  /** The non-empty tokens among the calls. */
  function InsertedTerms(ops: seq<(string, int, int)>): set<string>
  {
    set k | 0 <= k < |ops| && ops[k].0 != "" :: ops[k].0
  }

  lemma InsertedTermsSnoc(ops: seq<(string, int, int)>)
    requires ops != []
    ensures InsertedTerms(ops) == InsertedTerms(ops[..|ops| - 1])
      + (if ops[|ops| - 1].0 != "" then {ops[|ops| - 1].0} else {})
  {
    var init := ops[..|ops| - 1];
    forall t | t in InsertedTerms(ops)
      ensures t in InsertedTerms(init) + (if ops[|ops| - 1].0 != "" then {ops[|ops| - 1].0} else {})
    {
      var k :| 0 <= k < |ops| && ops[k].0 != "" && ops[k].0 == t;
      if k < |init| { assert init[k] == ops[k]; }
    }
    forall t | t in InsertedTerms(init) ensures t in InsertedTerms(ops) {
      var k :| 0 <= k < |init| && init[k].0 != "" && init[k].0 == t;
      assert ops[k] == init[k];
    }
  }

  lemma {:induction false} CallsForAbsent(ops: seq<(string, int, int)>, t: string)
    requires t != "" && t !in InsertedTerms(ops)
    ensures CallsFor(ops, t) == []
  {
    if ops != [] {
      InsertedTermsSnoc(ops);
      CallsForAbsent(ops[..|ops| - 1], t);
    }
  }

  /** The dictionary is exactly the non-empty tokens that were inserted. */
  lemma {:induction false} IndexOfKeys(ops: seq<(string, int, int)>)
    ensures IndexOf(ops).Keys == InsertedTerms(ops)
  {
    if ops != [] {
      IndexOfKeys(ops[..|ops| - 1]);
      InsertedTermsSnoc(ops);
    }
  }

  /**
   * What insert builds: each term's list is what the add(docID, offset)
   * calls for that term alone would build, untouched by the calls for
   * other terms.
   */
  lemma {:induction false} IndexOfLists(ops: seq<(string, int, int)>)
    ensures forall t :: t in IndexOf(ops) ==> IndexOf(ops)[t] == Build(CallsFor(ops, t))
  {
    if ops != [] {
      var init := ops[..|ops| - 1];
      var last := ops[|ops| - 1];
      IndexOfLists(init);
      IndexOfKeys(init);
      var L := IndexOf(init);
      forall t | t in IndexOf(ops) ensures IndexOf(ops)[t] == Build(CallsFor(ops, t)) {
        var calls := CallsFor(ops, t);
        if t == last.0 {
          assert calls == CallsFor(init, t) + [(last.1, last.2)];
          assert calls[..|calls| - 1] == CallsFor(init, t);
          if t !in L {
            CallsForAbsent(init, t);
          }
          assert Build(calls) == WithPosition(Build(CallsFor(init, t)), last.1, last.2);
        } else {
          assert calls == CallsFor(init, t);
        }
      }
    }
  }

  /** The calls for one term keep the docID order of all the calls. */
  lemma {:induction false} CallsForNonDecreasing(ops: seq<(string, int, int)>, t: string)
    requires forall x, y :: 0 <= x < y < |ops| ==> ops[x].1 <= ops[y].1
    ensures NonDecreasingDocs(CallsFor(ops, t))
    ensures forall k :: 0 <= k < |CallsFor(ops, t)| ==> exists x :: 0 <= x < |ops| && CallsFor(ops, t)[k].0 == ops[x].1
  {
    if ops != [] {
      var init := ops[..|ops| - 1];
      var last := ops[|ops| - 1];
      CallsForNonDecreasing(init, t);
      var c0 := CallsFor(init, t);
      var c := CallsFor(ops, t);
      forall k | 0 <= k < |c0| ensures c0[k].0 <= last.1 {
        var x :| 0 <= x < |init| && c0[k].0 == init[x].1;
        assert init[x] == ops[x];
      }
      forall k | 0 <= k < |c| ensures exists x :: 0 <= x < |ops| && c[k].0 == ops[x].1 {
        if k < |c0| {
          var x :| 0 <= x < |init| && c0[k].0 == init[x].1;
          assert c[k] == c0[k] && init[x] == ops[x];
        } else {
          assert c[k].0 == ops[|ops| - 1].1;
        }
      }
    }
  }

  /**
   * The single forward pass the indexer makes: documents in non-decreasing
   * docID order. Then every term's list is ascending with one entry per
   * document, its ID set mirrors it, and each entry holds exactly the
   * offsets inserted for that term and document.
   */
  lemma ForwardPassOrdered(ops: seq<(string, int, int)>)
    requires forall x, y :: 0 <= x < y < |ops| ==> ops[x].1 <= ops[y].1
    ensures AllAscending(IndexOf(ops))
    ensures forall t :: t in IndexOf(ops) ==> BuiltFrom(IndexOf(ops)[t], CallsFor(ops, t))
  {
    IndexOfLists(ops);
    forall t | t in IndexOf(ops) ensures BuiltFrom(IndexOf(ops)[t], CallsFor(ops, t)) {
      CallsForNonDecreasing(ops, t);
      BuildOrdered(CallsFor(ops, t));
    }
  }

  // ---------------------------------------------------------------------
  // Query planning: terms by ascending document frequency.

  /** A term's document frequency: its list's length, 0 for an absent term. */
  function Df(L: IndexView, t: string): nat
  {
    if t in L then |L[t].entries| else 0
  }

  predicate SortedByDf(L: IndexView, ts: seq<string>)
  {
    forall x, y :: 0 <= x < y < |ts| ==> Df(L, ts[x]) <= Df(L, ts[y])
  }

  /** t placed after every term of ts that is not more frequent. */
  function InsertByDf(L: IndexView, t: string, ts: seq<string>): (r: seq<string>)
    ensures multiset(r) == multiset(ts) + multiset{t} && |r| == |ts| + 1
  {
    if ts == [] then [t]
    else if Df(L, t) < Df(L, ts[0]) then [t] + ts
    else
      assert ts == [ts[0]] + ts[1..];
      [ts[0]] + InsertByDf(L, t, ts[1..])
  }

  /** A lower bound on the frequencies of t and ts bounds the result's. */
  lemma {:induction false} InsertByDfAbove(L: IndexView, t: string, ts: seq<string>, v: nat)
    requires v <= Df(L, t) && forall k :: 0 <= k < |ts| ==> v <= Df(L, ts[k])
    ensures forall k :: 0 <= k < |InsertByDf(L, t, ts)| ==> v <= Df(L, InsertByDf(L, t, ts)[k])
  {
    if ts != [] && Df(L, ts[0]) <= Df(L, t) {
      InsertByDfAbove(L, t, ts[1..], v);
    }
  }

  lemma {:induction false} InsertByDfSorted(L: IndexView, t: string, ts: seq<string>)
    requires SortedByDf(L, ts)
    ensures SortedByDf(L, InsertByDf(L, t, ts))
  {
    if ts != [] && Df(L, ts[0]) <= Df(L, t) {
      var rest := InsertByDf(L, t, ts[1..]);
      InsertByDfSorted(L, t, ts[1..]);
      InsertByDfAbove(L, t, ts[1..], Df(L, ts[0]));
      var r := [ts[0]] + rest;
      assert r == InsertByDf(L, t, ts);
      forall x, y | 0 <= x < y < |r| ensures Df(L, r[x]) <= Df(L, r[y]) {
        assert r[y] == rest[y - 1];
        if 0 < x { assert r[x] == rest[x - 1]; }
      }
    }
  }

  /** Collections.sort with CompareStrings, as an insertion sort. */
  function SortByDf(L: IndexView, ts: seq<string>): (r: seq<string>)
    ensures multiset(r) == multiset(ts) && |r| == |ts|
  {
    if ts == [] then []
    else
      assert ts == ts[..|ts| - 1] + [ts[|ts| - 1]];
      InsertByDf(L, ts[|ts| - 1], SortByDf(L, ts[..|ts| - 1]))
  }

  lemma {:induction false} SortByDfSorted(L: IndexView, ts: seq<string>)
    ensures SortedByDf(L, SortByDf(L, ts))
  {
    if ts != [] {
      SortByDfSorted(L, ts[..|ts| - 1]);
      InsertByDfSorted(L, ts[|ts| - 1], SortByDf(L, ts[..|ts| - 1]));
    }
  }

  // ---------------------------------------------------------------------
  // The documents every term of a query occurs in.

  predicate Present(L: IndexView, ts: seq<string>)
  {
    forall t :: t in ts ==> t in L
  }

  function CommonDocs(L: IndexView, ts: seq<string>): set<int>
    requires ts != [] && Present(L, ts)
  {
    set d | d in DocIds(L[ts[0]].entries) && forall t :: t in ts ==> d in DocIds(L[t].entries)
  }

  /** Reordering the terms does not change their common documents. */
  lemma CommonDocsPermutation(L: IndexView, ts: seq<string>, us: seq<string>)
    requires ts != [] && Present(L, ts) && multiset(ts) == multiset(us)
    ensures us != [] && Present(L, us)
    ensures CommonDocs(L, ts) == CommonDocs(L, us)
  {
    assert forall t :: t in ts <==> t in multiset(ts);
    assert forall t :: t in us <==> t in multiset(us);
    assert us[0] in multiset(us);
  }

  lemma CommonDocsFirst(L: IndexView, ts: seq<string>)
    requires ts != [] && Present(L, ts)
    ensures Present(L, ts[..1]) && CommonDocs(L, ts[..1]) == DocIds(L[ts[0]].entries)
  {
    assert ts[..1] == [ts[0]];
  }

  lemma CommonDocsStep(L: IndexView, ts: seq<string>, c: int)
    requires Present(L, ts) && 1 <= c < |ts|
    ensures Present(L, ts[..c]) && Present(L, ts[..c + 1])
    ensures CommonDocs(L, ts[..c + 1]) == CommonDocs(L, ts[..c]) * DocIds(L[ts[c]].entries)
  {
    assert ts[..c + 1] == ts[..c] + [ts[c]];
    assert forall t :: t in ts[..c + 1] <==> t in ts[..c] || t == ts[c];
  }

  lemma CommonDocsPrefix(L: IndexView, ts: seq<string>, c: int)
    requires Present(L, ts) && 1 <= c <= |ts|
    ensures Present(L, ts[..c]) && CommonDocs(L, ts) <= CommonDocs(L, ts[..c])
  {
    assert forall t :: t in ts[..c] ==> t in ts;
  }

  // ---------------------------------------------------------------------
  // Positional matching inside one document.

  predicate NonDecreasing(s: seq<int>)
  {
    forall x, y :: 0 <= x < y < |s| ==> s[x] <= s[y]
  }

  /** Some offset of the second word comes right after one of the first. */
  predicate Adjacent(e1: seq<int>, e2: seq<int>)
  {
    exists x, y :: 0 <= x < |e1| && 0 <= y < |e2| && e2[y] == e1[x] + 1
  }

  /** Every offset p of the second word that is listed has p - 1 among the first's. */
  predicate FollowsFirst(l: seq<int>, e1: seq<int>, e2: seq<int>)
  {
    forall q :: 0 <= q < |l| ==> l[q] in e2 && l[q] - 1 in e1
  }

  function Abs(x: int): int
  {
    if x < 0 then -x else x
  }

  /**
   * The nested offset loops of positionalIntersect for one common document:
   * the offsets it hands to answer.add(docID, ps), in order. The window l
   * lives across all offsets of the first word; an offset of the second word
   * right after the current first-word offset joins it, entries more than
   * one away from the current first-word offset leave it from the front, and
   * after every step the whole window is emitted again.
   */
  method ScanOffsets(e1: seq<int>, e2: seq<int>) returns (emitted: seq<int>)
    ensures FollowsFirst(emitted, e1, e2)
    ensures NonDecreasing(e2) && Adjacent(e1, e2) ==> emitted != []
  {
    var l: seq<int> := [];
    emitted := [];
    var k := 0;
    while k < |e1|
      invariant 0 <= k <= |e1|
      invariant FollowsFirst(l, e1, e2) && FollowsFirst(emitted, e1, e2)
      invariant NonDecreasing(e2) && (exists x, y :: 0 <= x < k && 0 <= y < |e2| && e2[y] == e1[x] + 1)
        ==> emitted != []
    {
      var a := e1[k];
      var m := 0;
      while m < |e2|
        invariant 0 <= m <= |e2|
        invariant FollowsFirst(l, e1, e2) && FollowsFirst(emitted, e1, e2)
        invariant NonDecreasing(e2) && (exists x, y :: 0 <= x < k && 0 <= y < |e2| && e2[y] == e1[x] + 1)
          ==> emitted != []
        invariant NonDecreasing(e2) && (exists y :: 0 <= y < m && e2[y] == a + 1) ==> emitted != []
      {
        var b := e2[m];
        if b - a == 1 {
          l := l + [b];
        } else if b > a {
          break;
        }
        ghost var found := b - a == 1;
        while l != [] && Abs(l[0] - a) > 1
          invariant FollowsFirst(l, e1, e2)
          invariant found ==> l != [] && l[|l| - 1] == a + 1
        {
          l := l[1..];
        }
        emitted := emitted + l;
        m := m + 1;
      }
      if m < |e2| && NonDecreasing(e2) {
        forall y | m <= y < |e2| ensures e2[y] != a + 1 {
          assert e2[m] <= e2[y] || y == m;
        }
      }
      k := k + 1;
    }
  }

  // ---------------------------------------------------------------------
  // Facts about a merge of two ascending lists.

  /** A document below b[j] and above everything before it is not in b. */
  lemma MergeSkip(b: seq<PostingsEntry>, j: int, d: int)
    requires Ascending(b) && 0 <= j < |b| && d < b[j].docID
    requires forall y :: 0 <= y < j ==> b[y].docID < d
    ensures d !in DocIds(b)
  {
    forall y | 0 <= y < |b| ensures b[y].docID != d {
      if j < y { assert b[j].docID < b[y].docID; }
    }
  }

  /** Entries of a that are above all of b contribute nothing to the intersection. */
  lemma MergeTail(a: seq<PostingsEntry>, b: seq<PostingsEntry>, i: int)
    requires 0 <= i <= |a|
    requires forall x, y :: 0 <= y < |b| && i <= x < |a| ==> b[y].docID < a[x].docID
    ensures DocIds(a) * DocIds(b) == DocIds(a[..i]) * DocIds(b)
  {
    forall d | d in DocIds(a) * DocIds(b) ensures d in DocIds(a[..i]) {
      var x :| 0 <= x < |a| && a[x].docID == d;
      var y :| 0 <= y < |b| && b[y].docID == d;
      assert x < i;
      assert a[..i][x] == a[x];
    }
    forall d | d in DocIds(a[..i]) ensures d in DocIds(a) {
      var x :| 0 <= x < i && a[..i][x].docID == d;
      assert a[x].docID == d;
    }
  }

  /** Every entry as `new PostingsEntry(docID)` makes it: no offsets, score 0. */
  predicate Blank(s: seq<PostingsEntry>)
  {
    forall k :: 0 <= k < |s| ==> s[k] == NewEntry(s[k].docID)
  }

  lemma BlankWithDoc(p: Snapshot, d: int)
    requires Blank(p.entries)
    ensures Blank(WithDoc(p, d).entries)
  {
  }

  /** The intersection after the first i entries of a were considered. */
  predicate CommonSoFar(p: Snapshot, a: seq<PostingsEntry>, b: seq<PostingsEntry>, i: int)
    requires 0 <= i <= |a|
  {
    Ordered(p) && DocIds(p.entries) == DocIds(a[..i]) * DocIds(b)
  }

  lemma CommonMatchStep(p: Snapshot, a: seq<PostingsEntry>, b: seq<PostingsEntry>, i: int, j: int)
    requires Ascending(a) && Ascending(b) && 0 <= i < |a| && 0 <= j < |b| && a[i].docID == b[j].docID
    requires Frontier(a, b, i, j) && CommonSoFar(p, a, b, i)
    ensures a[i].docID !in p.ids
    ensures Frontier(a, b, i + 1, j + 1) && CommonSoFar(WithDoc(p, a[i].docID), a, b, i + 1)
  {
    var d := a[i].docID;
    DocIdsPrefixStep(a, i);
    AscendingPrefixBelow(a, i);
    AscendingSnoc(p.entries, NewEntry(d));
    DocIdsSnoc(p.entries, NewEntry(d));
    assert d in DocIds(b) by { assert b[j].docID == d; }
    forall x, y | 0 <= x < i + 1 && j + 1 <= y < |b| ensures a[x].docID < b[y].docID {
      if x == i { assert b[j].docID < b[y].docID; }
    }
    forall x, y | 0 <= y < j + 1 && i + 1 <= x < |a| ensures b[y].docID < a[x].docID {
      if y == j { assert a[i].docID < a[x].docID; }
    }
  }

  lemma CommonSkipFirst(p: Snapshot, a: seq<PostingsEntry>, b: seq<PostingsEntry>, i: int, j: int)
    requires Ascending(a) && Ascending(b) && 0 <= i < |a| && 0 <= j < |b| && a[i].docID < b[j].docID
    requires Frontier(a, b, i, j) && CommonSoFar(p, a, b, i)
    ensures Frontier(a, b, i + 1, j) && CommonSoFar(p, a, b, i + 1)
  {
    DocIdsPrefixStep(a, i);
    MergeSkip(b, j, a[i].docID);
    forall x, y | 0 <= x < i + 1 && j <= y < |b| ensures a[x].docID < b[y].docID {
      if x == i { assert j == y || b[j].docID < b[y].docID; }
    }
  }

  lemma CommonEnd(p: Snapshot, a: seq<PostingsEntry>, b: seq<PostingsEntry>, i: int, j: int)
    requires Frontier(a, b, i, j) && (i == |a| || j == |b|) && CommonSoFar(p, a, b, i)
    ensures Ordered(p) && DocIds(p.entries) == DocIds(a) * DocIds(b)
  {
    MergeTail(a, b, i);
    assert a[..|a|] == a;
  }

  /** In an ascending list a document occurs at one position only. */
  lemma AscendingUniquePosition(s: seq<PostingsEntry>, x: int, y: int)
    requires Ascending(s) && 0 <= x < |s| && 0 <= y < |s| && s[x].docID == s[y].docID
    ensures x == y
  {
  }

  /** An entry of a phrase answer: the document is in both lists, with the
      offsets of the second word that directly follow an offset of the first. */
  predicate PhraseMatch(e: PostingsEntry, a: seq<PostingsEntry>, b: seq<PostingsEntry>)
  {
    exists x, y :: 0 <= x < |a| && 0 <= y < |b| && a[x].docID == e.docID && b[y].docID == e.docID
      && e.positions != [] && e.score == 0.0
      && FollowsFirst(e.positions, a[x].positions, b[y].positions)
  }

  /** Where a merge of a and b stands at positions i and j: everything
      passed over on one side is below everything still ahead on the other. */
  predicate Frontier(a: seq<PostingsEntry>, b: seq<PostingsEntry>, i: int, j: int)
  {
    && 0 <= i <= |a| && 0 <= j <= |b|
    && (forall x, y :: 0 <= x < i && j <= y < |b| ==> a[x].docID < b[y].docID)
    && (forall x, y :: 0 <= y < j && i <= x < |a| ==> b[y].docID < a[x].docID)
  }

  /** Every document among the first n of a that both lists hold, where the
      second word's offsets are in order and some pair is adjacent, is found. */
  predicate PhraseComplete(ids: set<int>, a: seq<PostingsEntry>, b: seq<PostingsEntry>, n: int)
  {
    forall x, y :: 0 <= x < n && x < |a| && 0 <= y < |b| && a[x].docID == b[y].docID
      && NonDecreasing(b[y].positions) && Adjacent(a[x].positions, b[y].positions)
      ==> a[x].docID in ids
  }

  /** The phrase answer after the first i entries of a were considered. */
  predicate PhraseSoFar(p: Snapshot, a: seq<PostingsEntry>, b: seq<PostingsEntry>, i: int)
    requires 0 <= i <= |a|
  {
    && Ordered(p)
    && p.ids <= DocIds(a[..i])
    && (forall k :: 0 <= k < |p.entries| ==> PhraseMatch(p.entries[k], a, b))
    && PhraseComplete(p.ids, a, b, i)
  }

  lemma PhraseMatchStep(p: Snapshot, a: seq<PostingsEntry>, b: seq<PostingsEntry>, i: int, j: int, emitted: seq<int>)
    requires Ascending(a) && Ascending(b) && 0 <= i < |a| && 0 <= j < |b| && a[i].docID == b[j].docID
    requires Frontier(a, b, i, j) && PhraseSoFar(p, a, b, i)
    requires FollowsFirst(emitted, a[i].positions, b[j].positions)
    requires NonDecreasing(b[j].positions) && Adjacent(a[i].positions, b[j].positions) ==> emitted != []
    ensures Frontier(a, b, i + 1, j + 1) && PhraseSoFar(WithPositions(p, a[i].docID, emitted), a, b, i + 1)
  {
    var d := a[i].docID;
    var r := WithPositions(p, d, emitted);
    DocIdsPrefixStep(a, i);
    AscendingPrefixBelow(a, i);
    forall x, y | 0 <= x < i + 1 && j + 1 <= y < |b| ensures a[x].docID < b[y].docID {
      if x == i { assert b[j].docID < b[y].docID; }
    }
    forall x, y | 0 <= y < j + 1 && i + 1 <= x < |a| ensures b[y].docID < a[x].docID {
      if y == j { assert a[i].docID < a[x].docID; }
    }
    if emitted != [] {
      WithPositionsUnseen(p, d, emitted);
      AscendingSnoc(p.entries, PostingsEntry(d, 0.0, emitted));
      assert PhraseMatch(r.entries[|r.entries| - 1], a, b);
      forall k | 0 <= k < |r.entries| ensures PhraseMatch(r.entries[k], a, b) {
        if k < |p.entries| { assert r.entries[k] == p.entries[k]; }
      }
      DocIdsSnoc(p.entries, PostingsEntry(d, 0.0, emitted));
    }
    forall x, y | 0 <= x < i + 1 && 0 <= y < |b| && a[x].docID == b[y].docID
      && NonDecreasing(b[y].positions) && Adjacent(a[x].positions, b[y].positions)
      ensures a[x].docID in r.ids
    {
      if x == i {
        AscendingUniquePosition(b, y, j);
      }
    }
  }

  lemma PhraseSkipFirst(p: Snapshot, a: seq<PostingsEntry>, b: seq<PostingsEntry>, i: int, j: int)
    requires Ascending(a) && Ascending(b) && 0 <= i < |a| && 0 <= j < |b| && a[i].docID < b[j].docID
    requires Frontier(a, b, i, j) && PhraseSoFar(p, a, b, i)
    ensures Frontier(a, b, i + 1, j) && PhraseSoFar(p, a, b, i + 1)
  {
    DocIdsPrefixStep(a, i);
    MergeSkip(b, j, a[i].docID);
    forall x, y | 0 <= x < i + 1 && j <= y < |b| ensures a[x].docID < b[y].docID {
      if x == i { assert j == y || b[j].docID < b[y].docID; }
    }
  }

  lemma FrontierSkipSecond(a: seq<PostingsEntry>, b: seq<PostingsEntry>, i: int, j: int)
    requires Ascending(a) && 0 <= i < |a| && 0 <= j < |b| && b[j].docID < a[i].docID
    requires Frontier(a, b, i, j)
    ensures Frontier(a, b, i, j + 1)
  {
    forall x, y | 0 <= y < j + 1 && i <= x < |a| ensures b[y].docID < a[x].docID {
      if y == j { assert x == i || a[i].docID < a[x].docID; }
    }
  }

  lemma PhraseEnd(p: Snapshot, a: seq<PostingsEntry>, b: seq<PostingsEntry>, i: int, j: int)
    requires Frontier(a, b, i, j) && (i == |a| || j == |b|) && PhraseSoFar(p, a, b, i)
    ensures Ordered(p)
    ensures forall k :: 0 <= k < |p.entries| ==> PhraseMatch(p.entries[k], a, b)
    ensures PhraseComplete(p.ids, a, b, |a|)
  {
    forall x, y | 0 <= x < |a| && 0 <= y < |b| && a[x].docID == b[y].docID
      && NonDecreasing(b[y].positions) && Adjacent(a[x].positions, b[y].positions)
      ensures a[x].docID in p.ids
    {
    }
  }

  /** The IDs of an ascending list without its last entry. */
  lemma AscendingDropLast(s: seq<PostingsEntry>)
    requires Ascending(s) && s != []
    ensures DocIds(s[..|s| - 1]) == DocIds(s) - {s[|s| - 1].docID}
    ensures s[|s| - 1].docID in DocIds(s)
  {
    var n := |s| - 1;
    DocIdsPrefixStep(s, n);
    assert s[..n + 1] == s;
    AscendingPrefixBelow(s, n);
  }

  /** An ascending list has as many entries as documents. */
  lemma {:induction false} AscendingCard(s: seq<PostingsEntry>)
    requires Ascending(s)
    ensures |DocIds(s)| == |s|
  {
    if s != [] {
      AscendingDropLast(s);
      AscendingCard(s[..|s| - 1]);
    }
  }

  /** An ascending list is determined, entry by entry, by its document IDs. */
  lemma {:induction false} AscendingDetermined(r1: seq<PostingsEntry>, r2: seq<PostingsEntry>)
    requires Ascending(r1) && Ascending(r2) && DocIds(r1) == DocIds(r2)
    ensures |r1| == |r2| && forall k :: 0 <= k < |r1| ==> r1[k].docID == r2[k].docID
  {
    AscendingCard(r1);
    AscendingCard(r2);
    if r1 != [] {
      var m1 := r1[|r1| - 1].docID;
      var m2 := r2[|r2| - 1].docID;
      AscendingDropLast(r1);
      AscendingDropLast(r2);
      var x :| 0 <= x < |r2| && r2[x].docID == m1;
      var y :| 0 <= y < |r1| && r1[y].docID == m2;
      AscendingBelowLast(r2, x);
      AscendingBelowLast(r1, y);
      AscendingDetermined(r1[..|r1| - 1], r2[..|r2| - 1]);
      forall k | 0 <= k < |r1| ensures r1[k].docID == r2[k].docID {
        if k < |r1| - 1 {
          assert r1[..|r1| - 1][k] == r1[k] && r2[..|r2| - 1][k] == r2[k];
        }
      }
    }
  }

  /** What intersect(list1, list2) promises for ascending inputs. */
  predicate IntersectionOf(r: seq<PostingsEntry>, a: seq<PostingsEntry>, b: seq<PostingsEntry>)
  {
    && Ascending(r)
    && DocIds(r) == DocIds(a) * DocIds(b)
    && Blank(r)
  }

  lemma SubsetCard(A: set<int>, B: set<int>)
    requires A <= B
    ensures |A| <= |B|
  {
    assert B == A + (B - A);
    assert A * (B - A) == {};
  }

  /** The intersection is no longer than either input. */
  lemma IntersectionSize(r: seq<PostingsEntry>, a: seq<PostingsEntry>, b: seq<PostingsEntry>)
    requires Ascending(a) && Ascending(b) && IntersectionOf(r, a, b)
    ensures |r| <= |a| && |r| <= |b|
  {
    AscendingCard(r);
    AscendingCard(a);
    AscendingCard(b);
    SubsetCard(DocIds(r), DocIds(a));
    SubsetCard(DocIds(r), DocIds(b));
  }

  /** Intersecting in either order gives the same list. */
  lemma IntersectionCommutes(r1: seq<PostingsEntry>, r2: seq<PostingsEntry>, a: seq<PostingsEntry>, b: seq<PostingsEntry>)
    requires IntersectionOf(r1, a, b) && IntersectionOf(r2, b, a)
    ensures r1 == r2
  {
    AscendingDetermined(r1, r2);
    forall k | 0 <= k < |r1| ensures r1[k] == r2[k] {
      assert r1[k] == NewEntry(r1[k].docID) && r2[k] == NewEntry(r2[k].docID);
    }
  }

  /** A phrase answer only holds documents of both lists. */
  lemma PhraseDocs(r: seq<PostingsEntry>, a: seq<PostingsEntry>, b: seq<PostingsEntry>)
    requires forall k :: 0 <= k < |r| ==> PhraseMatch(r[k], a, b)
    ensures DocIds(r) <= DocIds(a) * DocIds(b)
  {
    forall d | d in DocIds(r) ensures d in DocIds(a) * DocIds(b) {
      var k :| 0 <= k < |r| && r[k].docID == d;
      assert PhraseMatch(r[k], a, b);
    }
  }

  // ---------------------------------------------------------------------

  /** A new postings list holding the one offset. */
  method NewListAt(docID: int, offset: int) returns (pl: PostingsList)
    ensures fresh(pl) && pl.Valid() && pl.Snap() == WithPosition(Empty, docID, offset)
  {
    pl := new PostingsList();
    pl.AddPosition(docID, offset);
  }

  /** answer.add(docID, offset) for each offset in turn. */
  method AddPositions(answer: PostingsList, docID: int, offsets: seq<int>)
    requires answer.Valid()
    modifies answer
    ensures answer.Valid()
    ensures answer.Snap() == WithPositions(old(answer.Snap()), docID, offsets)
  {
    for q := 0 to |offsets|
      invariant answer.Valid()
      invariant answer.Snap() == WithPositions(old(answer.Snap()), docID, offsets[..q])
    {
      answer.AddPosition(docID, offsets[q]);
      assert offsets[..q + 1][..q] == offsets[..q];
    }
    assert offsets[..|offsets|] == offsets;
  }

  /** One step of the positional merge at entries i and j: a common document
      gets its matching offsets, otherwise the lower side moves on. */
  method PhraseStep(list1: PostingsList, list2: PostingsList, answer: PostingsList, i: int, j: int, ghost ord: bool)
      returns (i': int, j': int)
    requires answer != list1 && answer != list2 && answer.Valid()
    requires 0 <= i < |list1.list| && 0 <= j < |list2.list|
    requires ord ==> Ascending(list1.list) && Ascending(list2.list)
    requires ord ==> Frontier(list1.list, list2.list, i, j) && PhraseSoFar(answer.Snap(), list1.list, list2.list, i)
    modifies answer
    ensures answer.Valid()
    ensures i <= i' <= i + 1 && j <= j' <= j + 1 && i + j < i' + j'
    ensures ord ==> Frontier(list1.list, list2.list, i', j') && PhraseSoFar(answer.Snap(), list1.list, list2.list, i')
  {
    var p1 := list1.Get(i);
    var p2 := list2.Get(j);
    if p1.docID == p2.docID {
      var emitted := ScanOffsets(p1.positions, p2.positions);
      ghost var before := answer.Snap();
      AddPositions(answer, p1.docID, emitted);
      if ord {
        PhraseMatchStep(before, list1.list, list2.list, i, j, emitted);
      }
      i', j' := i + 1, j + 1;
    } else if p1.docID < p2.docID {
      if ord {
        PhraseSkipFirst(answer.Snap(), list1.list, list2.list, i, j);
      }
      i', j' := i + 1, j;
    } else {
      if ord {
        FrontierSkipSecond(list1.list, list2.list, i, j);
      }
      i', j' := i, j + 1;
    }
  }

  class HashedIndex {
    var index: map<string, PostingsList>
    /** The lists as values, term by term. */
    ghost var lists: IndexView
    ghost var Repr: set<PostingsList>
    /** The term each list belongs to. */
    ghost var owner: map<PostingsList, string>

    /** The lists are distinct objects, one per non-empty term. */
    ghost predicate Valid()
      reads this, Repr
    {
      && Repr == owner.Keys
      && "" !in index
      && index.Keys == lists.Keys
      && (forall t :: t in index ==> index[t] in Repr && owner[index[t]] == t && index[t].list == lists[t].entries && index[t].docIDs == lists[t].ids)
      && (forall pl :: pl in Repr ==> owner[pl] in index && index[owner[pl]] == pl && pl.docIDs <= DocIds(pl.list))
    }

    /** The index as a value. */
    function Lists(): (L: IndexView)
      reads this, Repr
      requires Valid()
      ensures L == lists && AllConsistent(L)
    {
      map t | t in index :: index[t].Snap()
    }

    constructor ()
      ensures Valid() && lists == map[] && Repr == {}
    {
      index := map[];
      lists := map[];
      Repr := {};
      owner := map[];
    }

    /** insert(token, docID, offset). */
    method Insert(token: string, docID: int, offset: int)
      requires Valid()
      modifies this, Repr
      ensures Valid() && fresh(Repr - old(Repr))
      ensures lists == InsertSpec(old(lists), token, docID, offset)
      ensures forall t :: t in old(index) ==> t in index && index[t] == old(index[t])
      ensures token != "" && token !in old(index) ==> token in index && fresh(index[token])
    {
      if token != "" {
        var pl := GetPostings(token);
        if pl == null {
          pl := NewListAt(docID, offset);
          AddList(token, pl);
        } else {
          InsertKnown(token, pl, docID, offset);
        }
      }
    }

    /** The index takes a new list under a term it does not hold yet. */
    method AddList(token: string, pl: PostingsList)
      requires Valid() && token != "" && token !in index && pl !in Repr && pl.Valid()
      modifies this
      ensures Valid() && Repr == old(Repr) + {pl}
      ensures index == old(index)[token := pl]
      ensures lists == old(lists)[token := pl.Snap()]
    {
      index, lists, Repr, owner := index[token := pl], lists[token := pl.Snap()], Repr + {pl}, owner[pl := token];
    }

    /** insert for a term already in the index: its own list grows. */
    method InsertKnown(token: string, pl: PostingsList, docID: int, offset: int)
      requires Valid() && token in index && pl == index[token]
      modifies pl, this`lists
      ensures Valid() && Repr == old(Repr)
      ensures lists == old(lists)[token := WithPosition(old(lists)[token], docID, offset)]
    {
      pl.AddPosition(docID, offset);
      lists := lists[token := pl.Snap()];
    }

    /** getDictionary(): the terms of the index, none of them empty. */
    function GetDictionary(): (terms: set<string>)
      reads this, Repr
      requires Valid()
      ensures terms == lists.Keys && "" !in terms
    {
      index.Keys
    }

    /** getPostings(token): the term's list, or null for a term never inserted. */
    function GetPostings(token: string): (pl: PostingsList?)
      reads this
      ensures pl == null <==> token !in index
      ensures pl != null ==> pl == index[token]
    {
      if token in index then index[token] else null
    }

    /** intersect(list1, list2): a fresh list with an empty entry for every
        document of both. */
    method Intersect(list1: PostingsList, list2: PostingsList) returns (result: PostingsList)
      ensures fresh(result) && result.Valid()
      ensures Blank(result.list)
      ensures Ascending(list1.list) && Ascending(list2.list) ==>
        Ordered(result.Snap()) && IntersectionOf(result.list, list1.list, list2.list)
    {
      result := new PostingsList();
      ghost var a := list1.list;
      ghost var b := list2.list;
      ghost var ord := Ascending(a) && Ascending(b);
      var i := 0;
      var j := 0;
      while i < list1.Size() && j < list2.Size()
        invariant 0 <= i <= |a| && 0 <= j <= |b|
        invariant fresh(result) && result.Valid()
        invariant Blank(result.list)
        invariant ord ==> Frontier(a, b, i, j) && CommonSoFar(result.Snap(), a, b, i)
      {
        var p1 := list1.Get(i);
        var p2 := list2.Get(j);
        if p1.docID == p2.docID {
          if ord {
            CommonMatchStep(result.Snap(), a, b, i, j);
          }
          BlankWithDoc(result.Snap(), p1.docID);
          result.AddDoc(p1.docID);
          i, j := i + 1, j + 1;
        } else if p1.docID < p2.docID {
          if ord {
            CommonSkipFirst(result.Snap(), a, b, i, j);
          }
          i := i + 1;
        } else {
          if ord {
            FrontierSkipSecond(a, b, i, j);
          }
          j := j + 1;
        }
      }
      if ord {
        CommonEnd(result.Snap(), a, b, i, j);
      }
    }
  
    /** positionalIntersect(list1, list2): for every document of both lists
        the offsets of the second word that directly follow the first. */
    method PositionalIntersect(list1: PostingsList, list2: PostingsList) returns (answer: PostingsList)
      ensures fresh(answer) && answer.Valid()
      ensures Ascending(list1.list) && Ascending(list2.list) ==>
        && Ordered(answer.Snap())
        && (forall k :: 0 <= k < |answer.list| ==> PhraseMatch(answer.list[k], list1.list, list2.list))
        && PhraseComplete(answer.docIDs, list1.list, list2.list, |list1.list|)
    {
      answer := new PostingsList();
      ghost var a := list1.list;
      ghost var b := list2.list;
      ghost var ord := Ascending(a) && Ascending(b);
      var i := 0;
      var j := 0;
      while i < list1.Size() && j < list2.Size()
        invariant 0 <= i <= |a| && 0 <= j <= |b|
        invariant fresh(answer) && answer.Valid()
        invariant ord ==> Frontier(a, b, i, j) && PhraseSoFar(answer.Snap(), a, b, i)
        decreases |a| + |b| - i - j
      {
        i, j := PhraseStep(list1, list2, answer, i, j, ord);
      }
      if ord {
        PhraseEnd(answer.Snap(), a, b, i, j);
      }
    }
  
    /** CompareStrings.compare(s1, s2): by postings size, an absent term counting 0. */
    function CompareStrings(s1: string, s2: string): (r: int)
      reads this, Repr
      requires Valid()
      ensures r < 0 <==> Df(lists, s1) < Df(lists, s2)
      ensures r == 0 <==> Df(lists, s1) == Df(lists, s2)
      ensures r > 0 <==> Df(lists, s1) > Df(lists, s2)
    {
      var pl1 := GetPostings(s1);
      var pl2 := GetPostings(s2);
      var size1 := if pl1 != null then pl1.Size() else 0;
      var size2 := if pl2 != null then pl2.Size() else 0;
      if size1 < size2 then -1 else if size1 > size2 then 1 else 0
    }

    /** Ordered by document frequency is ordered by CompareStrings. */
    lemma SortedByCompareStrings(ts: seq<string>)
      requires Valid()
      ensures SortedByDf(lists, ts) <==>
        forall x, y :: 0 <= x < y < |ts| ==> CompareStrings(ts[x], ts[y]) <= 0
    {
    }

    /** frequencySort(terms): the same terms, least frequent first. */
    method FrequencySort(terms: seq<string>) returns (sorted: seq<string>)
      requires Valid()
      ensures sorted == SortByDf(lists, terms)
      ensures multiset(sorted) == multiset(terms) && SortedByDf(lists, sorted)
    {
      sorted := SortByDf(Lists(), terms);
      SortByDfSorted(lists, terms);
    }

    /** One step of the chained evaluation: the running result combined
        with the next term's list as the query type says. */
    method Combine(result: PostingsList, next: PostingsList, queryType: QueryType) returns (r: PostingsList)
      ensures queryType != IntersectionQuery && queryType != PhraseQuery ==> r == result
      ensures queryType == IntersectionQuery && Ascending(result.list) && Ascending(next.list) ==>
        Ascending(r.list) && DocIds(r.list) == DocIds(result.list) * DocIds(next.list)
      ensures queryType == PhraseQuery && Ascending(result.list) && Ascending(next.list) ==>
        Ascending(r.list) && DocIds(r.list) <= DocIds(result.list) * DocIds(next.list)
    {
      r := result;
      if queryType == IntersectionQuery {
        r := Intersect(result, next);
      } else if queryType == PhraseQuery {
        r := PositionalIntersect(result, next);
        if Ascending(result.list) && Ascending(next.list) {
          PhraseDocs(r.list, result.list, next.list);
        }
      }
    }

    /**
     * The loop of intersect(terms, queryType) over the terms in the order
     * given: the running result starts as the first term's list and is
     * combined with the next term's list while terms remain and the result
     * is non-empty. Returns the result and what is left of the terms.
     */
    method Chain(order: seq<string>, queryType: QueryType) returns (result: PostingsList?, rest: seq<string>)
      requires Valid() && order != [] && (|order| == 1 || Present(lists, order))
      ensures |rest| < |order| && rest == order[|order| - |rest|..]
      ensures |order| == 1 || (queryType != IntersectionQuery && queryType != PhraseQuery) ==>
        result == GetPostings(order[0])
      ensures rest != [] ==> result != null && result.list == []
      ensures Present(lists, order) ==> result != null
      ensures queryType == IntersectionQuery && AllAscending(lists) && Present(lists, order) ==>
        Ascending(result.list) && DocIds(result.list) == CommonDocs(lists, order)
      ensures queryType == PhraseQuery && AllAscending(lists) && Present(lists, order) ==>
        Ascending(result.list) && DocIds(result.list) <= CommonDocs(lists, order)
    {
      ghost var all := Present(lists, order);
      ghost var asc := AllAscending(lists) && all;
      if all {
        CommonDocsFirst(lists, order);
      }
      result := GetPostings(order[0]);
      if all {
        assert result.Snap() == lists[order[0]];
      }
      var ts := order[1..];
      ghost var c := 1;
      while ts != [] && result.Size() > 0
        invariant 1 <= c <= |order| && ts == order[c..]
        invariant ts != [] || all ==> result != null
        invariant c == 1 || (queryType != IntersectionQuery && queryType != PhraseQuery) ==>
          result == GetPostings(order[0])
        invariant asc && queryType == IntersectionQuery ==>
          Ascending(result.list) && DocIds(result.list) == CommonDocs(lists, order[..c])
        invariant asc && queryType == PhraseQuery ==>
          Ascending(result.list) && DocIds(result.list) <= CommonDocs(lists, order[..c])
      {
        var next := GetPostings(ts[0]);
        if all {
          CommonDocsStep(lists, order, c);
          assert next.Snap() == lists[order[c]];
        }
        result := Combine(result, next, queryType);
        ts := ts[1..];
        c := c + 1;
      }
      rest := ts;
      if asc {
        if rest == [] {
          assert order[..c] == order;
        } else {
          CommonDocsPrefix(lists, order, c);
        }
      }
    }

    /** intersect(terms, queryType): an intersection query is planned by
        ascending document frequency first; a phrase keeps its word order. */
    method IntersectTerms(terms: seq<string>, queryType: QueryType) returns (result: PostingsList?, rest: seq<string>)
      requires Valid() && terms != [] && (|terms| == 1 || Present(lists, terms))
      ensures |rest| < |terms|
      ensures queryType == IntersectionQuery ==> rest == SortByDf(lists, terms)[|terms| - |rest|..]
      ensures queryType != IntersectionQuery ==> rest == terms[|terms| - |rest|..]
      ensures |terms| == 1 ==> rest == [] && result == GetPostings(terms[0])
      ensures queryType != IntersectionQuery && queryType != PhraseQuery ==> result == GetPostings(terms[0])
      ensures rest != [] ==> result != null && result.list == []
      ensures Present(lists, terms) ==> result != null
      ensures queryType == IntersectionQuery && AllAscending(lists) && Present(lists, terms) ==>
        Ascending(result.list) && DocIds(result.list) == CommonDocs(lists, terms)
      ensures queryType == PhraseQuery && AllAscending(lists) && Present(lists, terms) ==>
        Ascending(result.list) && DocIds(result.list) <= CommonDocs(lists, terms)
    {
      var ts := terms;
      if queryType == IntersectionQuery {
        ts := FrequencySort(ts);
        if |terms| == 1 {
          assert terms[..0] == [];
          assert ts == terms;
        }
      }
      if Present(lists, terms) {
        CommonDocsPermutation(lists, terms, ts);
      }
      result, rest := Chain(ts, queryType);
    }

    /** search(query, queryType, ...) outside ranked retrieval: the chained
        intersection, which consumes the query's term list. */
    method Search(query: Query, queryType: QueryType) returns (result: PostingsList?)
      requires Valid() && queryType != RankedQuery
      requires query.terms != [] && (|query.terms| == 1 || Present(lists, query.terms))
      modifies query
      ensures query.weights == old(query.weights) && |query.terms| < |old(query.terms)|
      ensures queryType == IntersectionQuery ==>
        query.terms == SortByDf(lists, old(query.terms))[|old(query.terms)| - |query.terms|..]
      ensures queryType != IntersectionQuery ==> query.terms == old(query.terms)[|old(query.terms)| - |query.terms|..]
      ensures |old(query.terms)| == 1 ==> query.terms == [] && result == GetPostings(old(query.terms)[0])
      ensures queryType != IntersectionQuery && queryType != PhraseQuery ==> result == GetPostings(old(query.terms)[0])
      ensures query.terms != [] ==> result != null && result.list == []
      ensures Present(lists, old(query.terms)) ==> result != null
      ensures queryType == IntersectionQuery && AllAscending(lists) && Present(lists, old(query.terms)) ==>
        Ascending(result.list) && DocIds(result.list) == CommonDocs(lists, old(query.terms))
      ensures queryType == PhraseQuery && AllAscending(lists) && Present(lists, old(query.terms)) ==>
        Ascending(result.list) && DocIds(result.list) <= CommonDocs(lists, old(query.terms))
    {
      var terms := query.terms;
      var rest;
      result, rest := IntersectTerms(terms, queryType);
      query.terms := rest;
    }
  }
}
