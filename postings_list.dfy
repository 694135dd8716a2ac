/**
 * A postings list: the entries of one term, kept in an ArrayList, and the
 * HashSet of their document IDs that answers membership queries.
 */
module Postings {
  import opened Entries

  /** The document IDs of a sequence of entries. */
  function DocIds(s: seq<PostingsEntry>): set<int>
  {
    set k | 0 <= k < |s| :: s[k].docID
  }

  lemma DocIdsAppend(s: seq<PostingsEntry>, t: seq<PostingsEntry>)
    ensures DocIds(s + t) == DocIds(s) + DocIds(t)
  {
    var u := s + t;
    forall d | d in DocIds(u) ensures d in DocIds(s) + DocIds(t) {
      var k :| 0 <= k < |u| && u[k].docID == d;
      if k >= |s| { assert t[k - |s|] == u[k]; }
    }
    forall d | d in DocIds(s) + DocIds(t) ensures d in DocIds(u) {
      if d in DocIds(s) {
        var k :| 0 <= k < |s| && s[k].docID == d;
        assert u[k] == s[k];
      } else {
        var k :| 0 <= k < |t| && t[k].docID == d;
        assert u[|s| + k] == t[k];
      }
    }
  }

  lemma DocIdsSnoc(s: seq<PostingsEntry>, e: PostingsEntry)
    ensures DocIds(s + [e]) == DocIds(s) + {e.docID}
  {
    DocIdsAppend(s, [e]);
    assert DocIds([e]) == {e.docID} by {
      assert [e][0] == e;
    }
  }

  lemma DocIdsPointwise(s: seq<PostingsEntry>, t: seq<PostingsEntry>)
    requires |s| == |t|
    requires forall k :: 0 <= k < |s| ==> s[k].docID == t[k].docID
    ensures DocIds(s) == DocIds(t)
  {
    forall d | d in DocIds(s) ensures d in DocIds(t) {
      var k :| 0 <= k < |s| && s[k].docID == d;
      assert t[k].docID == d;
    }
    forall d | d in DocIds(t) ensures d in DocIds(s) {
      var k :| 0 <= k < |t| && t[k].docID == d;
      assert s[k].docID == d;
    }
  }

  /** Entries strictly ascending by document ID (so at most one per document). */
  predicate Ascending(s: seq<PostingsEntry>)
  {
    forall x, y :: 0 <= x < y < |s| ==> s[x].docID < s[y].docID
  }

  lemma AscendingBelowLast(s: seq<PostingsEntry>, k: int)
    requires Ascending(s) && 0 <= k < |s|
    ensures s[k].docID <= s[|s| - 1].docID
  {
    if k < |s| - 1 {
      assert s[k].docID < s[|s| - 1].docID;
    }
  }

  /** An entry above every document of an ascending list keeps it ascending. */
  lemma AscendingSnoc(s: seq<PostingsEntry>, e: PostingsEntry)
    requires Ascending(s)
    requires forall d :: d in DocIds(s) ==> d < e.docID
    ensures Ascending(s + [e])
  {
    var u := s + [e];
    forall x, y | 0 <= x < y < |u| ensures u[x].docID < u[y].docID {
      if y == |s| {
        assert u[x] == s[x];
        assert s[x].docID in DocIds(s);
      }
    }
  }

  /** The IDs of one more entry of a prefix. */
  lemma DocIdsPrefixStep(s: seq<PostingsEntry>, i: int)
    requires 0 <= i < |s|
    ensures DocIds(s[..i + 1]) == DocIds(s[..i]) + {s[i].docID}
  {
    assert s[..i + 1] == s[..i] + [s[i]];
    DocIdsSnoc(s[..i], s[i]);
  }

  /** In an ascending list every document before position i is below s[i]. */
  lemma AscendingPrefixBelow(s: seq<PostingsEntry>, i: int)
    requires Ascending(s) && 0 <= i < |s|
    ensures forall d :: d in DocIds(s[..i]) ==> d < s[i].docID
  {
    forall d | d in DocIds(s[..i]) ensures d < s[i].docID {
      var k :| 0 <= k < i && s[..i][k].docID == d;
      assert s[k].docID == d;
    }
  }

  /** No two entries for the same document. */
  predicate NoDuplicates(s: seq<PostingsEntry>)
  {
    forall x, y :: 0 <= x < y < |s| ==> s[x].docID != s[y].docID
  }

  /** The two fields of a postings list, as a value. */
  datatype Snapshot = Snapshot(entries: seq<PostingsEntry>, ids: set<int>)

  const Empty: Snapshot := Snapshot([], {})

  /** What every operation keeps: each recorded ID has an entry (addAll may
      add entries without recording their IDs, so the converse can fail). */
  predicate Consistent(p: Snapshot)
  {
    p.ids <= DocIds(p.entries)
  }

  /** The intended invariant: ascending, and the set mirrors the list. */
  predicate Ordered(p: Snapshot)
  {
    Ascending(p.entries) && p.ids == DocIds(p.entries)
  }

  /** add(docID, offset): a new entry for an unseen document; otherwise the
      offset goes to the LAST entry, whichever document that entry is for. */
  function WithPosition(p: Snapshot, docID: int, offset: int): (r: Snapshot)
    requires Consistent(p)
    ensures Consistent(r)
  {
    if docID !in p.ids then
      DocIdsSnoc(p.entries, NewEntryAt(docID, offset));
      Snapshot(p.entries + [NewEntryAt(docID, offset)], p.ids + {docID})
    else
      var n := |p.entries|;
      var r := Snapshot(p.entries[..n - 1] + [WithOffset(p.entries[n - 1], offset)], p.ids);
      DocIdsPointwise(r.entries, p.entries);
      r
  }

  /** Successive add(docID, offset) calls for one document, one per offset. */
  function WithPositions(p: Snapshot, docID: int, offsets: seq<int>): (r: Snapshot)
    requires Consistent(p)
    ensures Consistent(r)
  {
    if offsets == [] then p
    else WithPosition(WithPositions(p, docID, offsets[..|offsets| - 1]), docID, offsets[|offsets| - 1])
  }

  /** For an unseen document the calls make one new entry, last in the list,
      holding exactly those offsets in call order. */
  lemma {:induction false} WithPositionsUnseen(p: Snapshot, docID: int, offsets: seq<int>)
    requires Consistent(p) && docID !in p.ids && offsets != []
    ensures WithPositions(p, docID, offsets)
      == Snapshot(p.entries + [PostingsEntry(docID, 0.0, offsets)], p.ids + {docID})
  {
    var init := offsets[..|offsets| - 1];
    if init == [] {
      assert offsets == [offsets[0]];
    } else {
      WithPositionsUnseen(p, docID, init);
      assert init + [offsets[|offsets| - 1]] == offsets;
      var q := WithPositions(p, docID, init);
      assert q.entries[..|q.entries| - 1] == p.entries;
    }
  }

  /** add(docID): a new empty entry unless the document is already known. */
  function WithDoc(p: Snapshot, docID: int): Snapshot
  {
    if docID in p.ids then p else Snapshot(p.entries + [NewEntry(docID)], p.ids + {docID})
  }

  /** Every entry of document docID with `amount` added to its score. */
  function Credited(s: seq<PostingsEntry>, docID: int, amount: real): (r: seq<PostingsEntry>)
  {
    seq(|s|, k requires 0 <= k < |s| =>
      if s[k].docID == docID then s[k].(score := s[k].score + amount) else s[k])
  }

  /** add(pe): a new document appends pe itself; a known one has its
      entries credited with pe's score. */
  function WithEntry(p: Snapshot, pe: PostingsEntry): Snapshot
  {
    if pe.docID !in p.ids then Snapshot(p.entries + [pe], p.ids + {pe.docID})
    else Snapshot(Credited(p.entries, pe.docID, pe.score), p.ids)
  }

  /** An unseen document gets one new entry at the tail holding exactly the
      offset, and its ID is recorded. */
  lemma AddPositionUnseen(p: Snapshot, docID: int, offset: int)
    requires Consistent(p) && docID !in p.ids
    ensures var r := WithPosition(p, docID, offset);
      && |r.entries| == |p.entries| + 1
      && r.entries[..|p.entries|] == p.entries
      && r.entries[|p.entries|].docID == docID
      && r.entries[|p.entries|].positions == [offset]
      && r.ids == p.ids + {docID}
  {
    assert (p.entries + [NewEntryAt(docID, offset)])[..|p.entries|] == p.entries;
  }

  /** A known document leaves the size and IDs alone and extends the last
      entry's offsets only. */
  lemma AddPositionKnown(p: Snapshot, docID: int, offset: int)
    requires Consistent(p) && docID in p.ids
    ensures var r := WithPosition(p, docID, offset);
      && |p.entries| > 0
      && |r.entries| == |p.entries|
      && r.entries[..|p.entries| - 1] == p.entries[..|p.entries| - 1]
      && r.entries[|p.entries| - 1] == WithOffset(p.entries[|p.entries| - 1], offset)
      && r.ids == p.ids
  {
    var n := |p.entries|;
    assert (p.entries[..n - 1] + [WithOffset(p.entries[n - 1], offset)])[..n - 1] == p.entries[..n - 1];
  }

  /** add(docID) is idempotent. */
  lemma AddDocIdempotent(p: Snapshot, docID: int)
    ensures WithDoc(WithDoc(p, docID), docID) == WithDoc(p, docID)
    ensures docID in WithDoc(p, docID).ids
  {
  }

  /** add(pe) never creates a second entry for a document; for a known
      document the length is unchanged and the one entry of that document
      gains pe's score. */
  lemma AddEntryNoDuplicate(p: Snapshot, pe: PostingsEntry)
    requires NoDuplicates(p.entries) && p.ids == DocIds(p.entries)
    ensures var r := WithEntry(p, pe);
      && NoDuplicates(r.entries) && r.ids == DocIds(r.entries)
      && (pe.docID in p.ids ==>
            && |r.entries| == |p.entries|
            && forall k :: 0 <= k < |p.entries| ==>
                 && r.entries[k].docID == p.entries[k].docID
                 && r.entries[k].positions == p.entries[k].positions
                 && r.entries[k].score == p.entries[k].score + (if p.entries[k].docID == pe.docID then pe.score else 0.0))
  {
    var r := WithEntry(p, pe);
    if pe.docID in p.ids {
      DocIdsPointwise(r.entries, p.entries);
    } else {
      assert r.entries == p.entries + [pe];
      DocIdsSnoc(p.entries, pe);
    }
  }

  // ---------------------------------------------------------------------
  // A postings list built by successive add(docID, offset) calls.

  /** The list after the calls `ops` (pairs docID, offset), from an empty list. */
  function Build(ops: seq<(int, int)>): (r: Snapshot)
    ensures Consistent(r)
  {
    if ops == [] then Empty
    else
      var last := ops[|ops| - 1];
      WithPosition(Build(ops[..|ops| - 1]), last.0, last.1)
  }

  /** The document IDs named by the calls. */
  function OpDocs(ops: seq<(int, int)>): set<int>
  {
    set k | 0 <= k < |ops| :: ops[k].0
  }

  /** The offsets given for document docID, in call order. */
  function OffsetsOf(ops: seq<(int, int)>, docID: int): seq<int>
  {
    if ops == [] then []
    else
      var last := ops[|ops| - 1];
      OffsetsOf(ops[..|ops| - 1], docID) + (if last.0 == docID then [last.1] else [])
  }

  predicate NonDecreasingDocs(ops: seq<(int, int)>)
  {
    forall x, y :: 0 <= x < y < |ops| ==> ops[x].0 <= ops[y].0
  }

  lemma {:induction false} OffsetsOfAbsent(ops: seq<(int, int)>, docID: int)
    requires docID !in OpDocs(ops)
    ensures OffsetsOf(ops, docID) == []
  {
    if ops != [] {
      var init := ops[..|ops| - 1];
      assert OpDocs(init) <= OpDocs(ops) by {
        forall d | d in OpDocs(init) ensures d in OpDocs(ops) {
          var k :| 0 <= k < |init| && init[k].0 == d;
          assert ops[k] == init[k];
        }
      }
      assert ops[|ops| - 1].0 in OpDocs(ops);
      OffsetsOfAbsent(init, docID);
    }
  }

  lemma OpDocsSnoc(ops: seq<(int, int)>)
    requires ops != []
    ensures OpDocs(ops) == OpDocs(ops[..|ops| - 1]) + {ops[|ops| - 1].0}
  {
    var init := ops[..|ops| - 1];
    forall d | d in OpDocs(ops) ensures d in OpDocs(init) + {ops[|ops| - 1].0} {
      var k :| 0 <= k < |ops| && ops[k].0 == d;
      if k < |init| { assert init[k] == ops[k]; }
    }
    forall d | d in OpDocs(init) ensures d in OpDocs(ops) {
      var k :| 0 <= k < |init| && init[k].0 == d;
      assert ops[k] == init[k];
    }
  }

  /** r is what the calls ops leave behind when they come in order. */
  predicate BuiltFrom(r: Snapshot, ops: seq<(int, int)>)
  {
    && Ordered(r)
    && r.ids == OpDocs(ops)
    && forall k :: 0 <= k < |r.entries| ==>
         r.entries[k].positions == OffsetsOf(ops, r.entries[k].docID) && r.entries[k].score == 0.0
  }

  lemma OffsetsOfSnoc(ops: seq<(int, int)>, x: (int, int), docID: int)
    ensures OffsetsOf(ops + [x], docID) == OffsetsOf(ops, docID) + (if x.0 == docID then [x.1] else [])
  {
    assert (ops + [x])[..|ops|] == ops;
  }

  lemma StepUnseen(p: Snapshot, ops: seq<(int, int)>, x: (int, int))
    requires BuiltFrom(p, ops)
    requires x.0 !in p.ids
    requires forall d :: d in p.ids ==> d <= x.0
    ensures BuiltFrom(WithPosition(p, x.0, x.1), ops + [x])
  {
    var r := WithPosition(p, x.0, x.1);
    var n := |p.entries|;
    assert r.entries == p.entries + [NewEntryAt(x.0, x.1)];
    DocIdsSnoc(p.entries, NewEntryAt(x.0, x.1));
    OpDocsSnoc(ops + [x]);
    assert (ops + [x])[..|ops|] == ops;
    OffsetsOfAbsent(ops, x.0);
    forall k | 0 <= k < n
      ensures r.entries[k].positions == OffsetsOf(ops + [x], r.entries[k].docID)
    {
      assert r.entries[k] == p.entries[k];
      assert p.entries[k].docID in DocIds(p.entries);
      OffsetsOfSnoc(ops, x, p.entries[k].docID);
    }
    OffsetsOfSnoc(ops, x, x.0);
    assert forall k :: 0 <= k < n ==> p.entries[k].docID in p.ids;
  }

  lemma StepKnown(p: Snapshot, ops: seq<(int, int)>, x: (int, int))
    requires BuiltFrom(p, ops)
    requires x.0 in p.ids
    requires forall d :: d in p.ids ==> d <= x.0
    ensures BuiltFrom(WithPosition(p, x.0, x.1), ops + [x])
  {
    var r := WithPosition(p, x.0, x.1);
    var n := |p.entries|;
    assert p.entries[n - 1].docID in DocIds(p.entries);
    assert x.0 == p.entries[n - 1].docID by {
      var k :| 0 <= k < n && p.entries[k].docID == x.0;
      AscendingBelowLast(p.entries, k);
    }
    DocIdsPointwise(r.entries, p.entries);
    OpDocsSnoc(ops + [x]);
    assert (ops + [x])[..|ops|] == ops;
    forall k | 0 <= k < n
      ensures r.entries[k].positions == OffsetsOf(ops + [x], r.entries[k].docID)
    {
      OffsetsOfSnoc(ops, x, p.entries[k].docID);
      if k < n - 1 {
        assert r.entries[k] == p.entries[k];
        assert p.entries[k].docID < p.entries[n - 1].docID;
      }
    }
  }

  /**
   * The forward-pass property: when the calls come in non-decreasing docID
   * order, the list is ascending with one entry per document, the ID set
   * mirrors it exactly (so contains(d) holds iff some call named d), and
   * each entry holds precisely the offsets given for its document, in order.
   */
  lemma {:induction false} BuildOrdered(ops: seq<(int, int)>)
    requires NonDecreasingDocs(ops)
    ensures BuiltFrom(Build(ops), ops)
  {
    if ops != [] {
      var init := ops[..|ops| - 1];
      var last := ops[|ops| - 1];
      assert NonDecreasingDocs(init);
      BuildOrdered(init);
      var p := Build(init);
      assert init + [last] == ops;
      EarlierDocsBelow(init, last);
      if last.0 in p.ids {
        StepKnown(p, init, last);
      } else {
        StepUnseen(p, init, last);
      }
    }
  }

  lemma EarlierDocsBelow(init: seq<(int, int)>, last: (int, int))
    requires NonDecreasingDocs(init + [last])
    ensures forall d :: d in OpDocs(init) ==> d <= last.0
  {
    var ops := init + [last];
    forall d | d in OpDocs(init) ensures d <= last.0 {
      var k :| 0 <= k < |init| && init[k].0 == d;
      assert init[k] == ops[k] && ops[|init|] == last;
    }
  }

  // ---------------------------------------------------------------------

  class PostingsList {
    var list: seq<PostingsEntry>
    var docIDs: set<int>

    constructor ()
      ensures list == [] && docIDs == {}
    {
      list := [];
      docIDs := {};
    }

    /** The two fields as a value. */
    function Snap(): Snapshot
      reads this
    {
      Snapshot(list, docIDs)
    }

    /** The object invariant: every recorded ID has an entry. */
    ghost predicate Valid()
      reads this
    {
      Consistent(Snap())
    }

    /** addAll(temp): temp's entries after ours, in order; the ID set is
        NOT updated. temp may be this list itself. */
    method AddAll(temp: PostingsList)
      requires Valid()
      modifies this
      ensures Valid()
      ensures list == old(list) + old(temp.list) && docIDs == old(docIDs)
    {
      DocIdsAppend(list, temp.list);
      list := list + temp.list;
    }

    /** size(): the number of entries. */
    function Size(): (n: nat)
      reads this
      ensures n == |list|
    {
      |list|
    }

    /** get(i): the i-th entry. */
    function Get(i: int): (e: PostingsEntry)
      reads this
      requires 0 <= i < |list|
      ensures e == list[i]
    {
      list[i]
    }

    /** contains(docID): membership in the ID set, not a scan of the list. */
    function Contains(docID: int): (b: bool)
      reads this
      ensures b <==> docID in docIDs
    {
      docID in docIDs
    }

    /** add(pe). */
    method Add(pe: PostingsEntry)
      requires Valid()
      modifies this
      ensures Valid()
      ensures Snap() == WithEntry(old(Snap()), pe)
    {
      if !Contains(pe.docID) {
        DocIdsSnoc(list, pe);
        docIDs := docIDs + {pe.docID};
        list := list + [pe];
      } else {
        ghost var credited := Credited(list, pe.docID, pe.score);
        var i := 0;
        while i < Size()
          invariant 0 <= i <= |list| == |old(list)|
          invariant docIDs == old(docIDs)
          invariant forall k :: 0 <= k < i ==> list[k] == credited[k]
          invariant forall k :: i <= k < |list| ==> list[k] == old(list)[k]
        {
          if Get(i).docID == pe.docID {
            list := list[i := list[i].(score := list[i].score + pe.score)];
          }
          i := i + 1;
        }
        assert list == credited;
        DocIdsPointwise(list, old(list));
      }
    }

    /** add(docID). */
    method AddDoc(docID: int)
      requires Valid()
      modifies this
      ensures Valid()
      ensures Snap() == WithDoc(old(Snap()), docID)
    {
      if !Contains(docID) {
        var e := NewEntry(docID);
        DocIdsSnoc(list, e);
        docIDs := docIDs + {docID};
        list := list + [e];
      }
    }

    /** add(docID, offset). */
    method AddPosition(docID: int, offset: int)
      requires Valid()
      modifies this
      ensures Valid()
      ensures Snap() == WithPosition(old(Snap()), docID, offset)
    {
      if !Contains(docID) {
        DocIdsSnoc(list, NewEntryAt(docID, offset));
        docIDs := docIDs + {docID};
        list := list + [NewEntryAt(docID, offset)];
      } else {
        var pe := list[|list| - 1];
        DocIdsPointwise(list[..|list| - 1] + [WithOffset(pe, offset)], list);
        list := list[..|list| - 1] + [WithOffset(pe, offset)];
      }
    }
  }
}
