/**
 * The biword index: postings lists keyed by pairs of consecutive words of
 * one document. insert is a small state machine that remembers the last
 * word and document it saw.
 */
module Biword {
  import opened Wrappers
  import opened Entries
  import opened Postings
  import opened IndexConstants

  /** A biword: the word before (None only before any word was seen) and the word itself. */
  type Pair = (Option<string>, string)

  /** The index as a value: previous word -> word -> postings list. */
  type BiwordView = map<Option<string>, map<string, Snapshot>>

  predicate AllConsistent(L: BiwordView)
  {
    forall w, t :: w in L && t in L[w] ==> Consistent(L[w][t])
  }

  /** Pair b has a list. */
  predicate Has(L: BiwordView, b: Pair)
  {
    b.0 in L && b.1 in L[b.0]
  }

  /** The list of pair b, empty when b has none. */
  function ListOf(L: BiwordView, b: Pair): (r: Snapshot)
    requires AllConsistent(L)
    ensures Consistent(r)
    ensures !Has(L, b) ==> r == Empty
  {
    if Has(L, b) then L[b.0][b.1] else Empty
  }

  /** What insert reads and writes, as a value. */
  datatype State = State(index: BiwordView, previousWord: Option<string>, previousDocID: int)

  /** A fresh index: no lists, no previous word, previous docID -1. */
  const Initial: State := State(map[], None, -1)

  /**
   * insert(token, docID, offset) on the value. The first token of a new
   * docID only moves the state on; a later token of the same docID adds
   * (docID, offset) to the list of (previous word, token), making the
   * inner map and the list first when they are missing.
   */
  function Step(s: State, token: string, docID: int, offset: int): (r: State)
    requires AllConsistent(s.index)
    ensures AllConsistent(r.index)
  {
    if docID != s.previousDocID then State(s.index, Some(token), docID)
    else
      var w := s.previousWord;
      var inner := if w in s.index then s.index[w] else map[];
      var pl := if token in inner then inner[token] else Empty;
      State(s.index[w := inner[token := WithPosition(pl, docID, offset)]], Some(token), s.previousDocID)
  }

  /** After insert the state remembers the call; a new document indexes
      nothing; otherwise exactly pair (previous word, token) gains the call
      and every other pair keeps its list. */
  lemma StepEffect(s: State, token: string, docID: int, offset: int)
    requires AllConsistent(s.index)
    ensures var r := Step(s, token, docID, offset);
      && r.previousWord == Some(token) && r.previousDocID == docID
      && (docID != s.previousDocID ==> r.index == s.index)
      && (docID == s.previousDocID ==>
            var b := (s.previousWord, token);
            && Has(r.index, b)
            && ListOf(r.index, b) == WithPosition(ListOf(s.index, b), docID, offset)
            && forall c: Pair :: c != b ==> (Has(r.index, c) <==> Has(s.index, c)) && ListOf(r.index, c) == ListOf(s.index, c))
  {
  }

  /** The state after the insert calls `ops` (token, docID, offset) on a fresh index. */
  function Run(ops: seq<(string, int, int)>): (r: State)
    ensures AllConsistent(r.index)
  {
    if ops == [] then Initial
    else
      var last := ops[|ops| - 1];
      Step(Run(ops[..|ops| - 1]), last.0, last.1, last.2)
  }

  /** The state remembers the last call. */
  lemma RunRemembersLast(ops: seq<(string, int, int)>)
    requires ops != []
    ensures Run(ops).previousWord == Some(ops[|ops| - 1].0) && Run(ops).previousDocID == ops[|ops| - 1].1
  {
    var last := ops[|ops| - 1];
    StepEffect(Run(ops[..|ops| - 1]), last.0, last.1, last.2);
  }

  /** The docID insert compares call i against. */
  function PrevDoc(ops: seq<(string, int, int)>, i: int): int
    requires 0 <= i < |ops|
  {
    if i == 0 then -1 else ops[i - 1].1
  }

  /** The word call i is paired with. */
  function PrevWord(ops: seq<(string, int, int)>, i: int): Option<string>
    requires 0 <= i < |ops|
  {
    if i == 0 then None else Some(ops[i - 1].0)
  }

  /** Call i reaches a list: its docID is the one before it. */
  predicate Pairs(ops: seq<(string, int, int)>, i: int)
    requires 0 <= i < |ops|
  {
    ops[i].1 == PrevDoc(ops, i)
  }

  /** The pairs the calls index. */
  function Biwords(ops: seq<(string, int, int)>): set<Pair>
  {
    set i | 0 <= i < |ops| && Pairs(ops, i) :: (PrevWord(ops, i), ops[i].0)
  }

  /** The (docID, offset) calls that reached pair b's list, in order. */
  function CallsFor(ops: seq<(string, int, int)>, b: Pair): seq<(int, int)>
  {
    if ops == [] then []
    else
      var n := |ops| - 1;
      CallsFor(ops[..n], b) + (if Pairs(ops, n) && (PrevWord(ops, n), ops[n].0) == b then [(ops[n].1, ops[n].2)] else [])
  }

  lemma PrefixAgrees(ops: seq<(string, int, int)>, i: int)
    requires 0 <= i < |ops| - 1
    ensures var init := ops[..|ops| - 1];
      init[i] == ops[i] && PrevDoc(init, i) == PrevDoc(ops, i) && PrevWord(init, i) == PrevWord(ops, i)
  {
  }

  lemma BiwordsSnoc(ops: seq<(string, int, int)>)
    requires ops != []
    ensures var n := |ops| - 1;
      Biwords(ops) == Biwords(ops[..n]) + (if Pairs(ops, n) then {(PrevWord(ops, n), ops[n].0)} else {})
  {
    var n := |ops| - 1;
    var init := ops[..n];
    var extra: set<Pair> := if Pairs(ops, n) then {(PrevWord(ops, n), ops[n].0)} else {};
    forall b | b in Biwords(ops) ensures b in Biwords(init) + extra {
      var i :| 0 <= i < |ops| && Pairs(ops, i) && b == (PrevWord(ops, i), ops[i].0);
      if i < n {
        PrefixAgrees(ops, i);
        assert Pairs(init, i);
      }
    }
    forall b | b in Biwords(init) ensures b in Biwords(ops) {
      var i :| 0 <= i < |init| && Pairs(init, i) && b == (PrevWord(init, i), init[i].0);
      PrefixAgrees(ops, i);
      assert Pairs(ops, i);
    }
  }

  lemma {:induction false} CallsForAbsent(ops: seq<(string, int, int)>, b: Pair)
    requires b !in Biwords(ops)
    ensures CallsFor(ops, b) == []
  {
    if ops != [] {
      BiwordsSnoc(ops);
      CallsForAbsent(ops[..|ops| - 1], b);
    }
  }

  /** The state before call n compares against call n - 1. */
  lemma RunBefore(ops: seq<(string, int, int)>)
    requires ops != []
    ensures var n := |ops| - 1;
      Run(ops[..n]).previousDocID == PrevDoc(ops, n) && Run(ops[..n]).previousWord == PrevWord(ops, n)
  {
    var n := |ops| - 1;
    if n > 0 {
      RunRemembersLast(ops[..n]);
      assert ops[..n][n - 1] == ops[n - 1];
    }
  }

  /** The pairs with a list are exactly those of consecutive calls within one docID. */
  lemma {:induction false} RunKeys(ops: seq<(string, int, int)>)
    ensures forall b: Pair :: Has(Run(ops).index, b) <==> b in Biwords(ops)
  {
    if ops != [] {
      var n := |ops| - 1;
      RunKeys(ops[..n]);
      BiwordsSnoc(ops);
      RunBefore(ops);
      StepEffect(Run(ops[..n]), ops[n].0, ops[n].1, ops[n].2);
    }
  }

  /** Each pair's list is what the add(docID, offset) calls for that pair alone would build. */
  lemma {:induction false} RunLists(ops: seq<(string, int, int)>)
    ensures forall b: Pair :: ListOf(Run(ops).index, b) == Build(CallsFor(ops, b))
  {
    if ops != [] {
      var n := |ops| - 1;
      var init := ops[..n];
      RunLists(init);
      RunKeys(init);
      RunBefore(ops);
      var s := Run(init);
      StepEffect(s, ops[n].0, ops[n].1, ops[n].2);
      forall b: Pair ensures ListOf(Run(ops).index, b) == Build(CallsFor(ops, b)) {
        var calls := CallsFor(ops, b);
        if Pairs(ops, n) && b == (PrevWord(ops, n), ops[n].0) {
          assert calls == CallsFor(init, b) + [(ops[n].1, ops[n].2)];
          assert calls[..|calls| - 1] == CallsFor(init, b);
          if !Has(s.index, b) {
            CallsForAbsent(init, b);
          }
        } else {
          assert calls == CallsFor(init, b);
        }
      }
    }
  }

  /** The first call of every docID indexes nothing. */
  lemma FirstOfDocumentUnpaired(ops: seq<(string, int, int)>, i: int)
    requires 0 < i < |ops| && ops[i].1 != ops[i - 1].1
    ensures forall b: Pair :: CallsFor(ops[..i + 1], b) == CallsFor(ops[..i], b)
    ensures Biwords(ops[..i + 1]) == Biwords(ops[..i])
  {
    var pre := ops[..i + 1];
    assert pre[..i] == ops[..i];
    assert pre[i - 1] == ops[i - 1] && pre[i] == ops[i];
    assert !Pairs(pre, i);
    BiwordsSnoc(pre);
  }

  // ---------------------------------------------------------------------
  // search: only ranked retrieval over bigrams is accepted.

  datatype SearchOutcome = Rejected | RankedRetrieval

  /** The guard of search: anything but a ranked query over bigrams is refused (null). */
  function SearchGuard(queryType: QueryType, structureType: StructureType): (o: SearchOutcome)
    ensures o == Rejected <==> queryType != RankedQuery || structureType != Bigram
  {
    if queryType != RankedQuery then Rejected
    else if structureType != Bigram then Rejected
    else RankedRetrieval
  }

  // ---------------------------------------------------------------------
  // The index object.

  class BiwordIndex {
    var index: BiwordView
    var previousWord: Option<string>
    var previousDocID: int

    /** Every list is consistent. */
    ghost predicate Valid()
      reads this
    {
      AllConsistent(index)
    }

    /** The fields insert reads and writes, as a value. */
    function Current(): State
      reads this
    {
      State(index, previousWord, previousDocID)
    }

    constructor ()
      ensures Valid() && Current() == Initial
    {
      index := map[];
      previousWord := None;
      previousDocID := -1;
    }

    /** insert(token, docID, offset). */
    method Insert(token: string, docID: int, offset: int)
      requires Valid()
      modifies this
      ensures Valid() && Current() == Step(old(Current()), token, docID, offset)
    {
      if docID != previousDocID {
        previousDocID := docID;
        previousWord := Some(token);
        return;
      }
      ghost var inner := if previousWord in index then index[previousWord] else map[];
      ghost var before := if token in inner then inner[token] else Empty;
      if previousWord !in index {
        index := index[previousWord := map[]];
      }
      if token !in index[previousWord] {
        index := index[previousWord := index[previousWord][token := Empty]];
      }
      var pl := index[previousWord][token];
      // The offset recorded is the one given with the pair's second word.
      pl := WithPosition(pl, docID, offset);
      assert pl == WithPosition(before, docID, offset);
      index := index[previousWord := index[previousWord][token := pl]];
      assert index[previousWord] == inner[token := pl];
      previousWord := Some(token);
    }

    /** getDictionary(): not implemented, always null. */
    function GetDictionary(): (terms: Option<set<string>>)
      ensures terms == None
    {
      None
    }

    /** getPostings(token): not implemented, always null. */
    function GetPostings(token: string): (pl: PostingsList?)
      ensures pl == null
    {
      null
    }
  }
}
