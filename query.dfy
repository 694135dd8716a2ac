/**
 * A query: parallel lists of terms and weights, built from a string and
 * expanded by relevance feedback. The arithmetic of the feedback weights
 * is carried out on reals; only the shape of the result is specified.
 */
module Queries {
  import opened Tokenizer
  import opened Entries
  import opened Postings

  const Alpha: real := 1.0
  const Beta: real := 0.8

  /** Real division where a zero divisor gives 0 (the IEEE NaN and
      infinities of the double division are not modelled). */
  function Div(x: real, y: real): real
  {
    if y == 0.0 then 0.0 else x / y
  }

  predicate Distinct(ts: seq<string>)
  {
    forall x, y :: 0 <= x < y < |ts| ==> ts[x] != ts[y]
  }

  /** The feedback input is usable: every relevant position i names an
      entry of results whose document has a term vector. */
  predicate FeedbackDefined(results: seq<PostingsEntry>, relevant: seq<bool>, vectors: map<int, map<string, int>>)
  {
    forall i :: 0 <= i < |relevant| && relevant[i] ==> i < |results| && results[i].docID in vectors
  }

  /** The terms of the term vectors of the relevant documents among the first n. */
  function RelevantTerms(results: seq<PostingsEntry>, relevant: seq<bool>, vectors: map<int, map<string, int>>, n: nat): set<string>
    requires n <= |relevant| && FeedbackDefined(results, relevant, vectors)
  {
    if n == 0 then {}
    else
      var earlier := RelevantTerms(results, relevant, vectors, n - 1);
      if relevant[n - 1] then earlier + vectors[results[n - 1].docID].Keys else earlier
  }

  /** The keys of m listed once each, and the value of each key beside it,
      in some order, as keySet() and values() of one map enumerate them. */
  method Enumerate(m: map<string, real>) returns (keys: seq<string>, values: seq<real>)
    ensures Distinct(keys) && (set k | k in keys) == m.Keys
    ensures |values| == |keys| && forall k :: 0 <= k < |keys| ==> keys[k] in m && values[k] == m[keys[k]]
  {
    keys, values := [], [];
    var todo := m.Keys;
    while todo != {}
      invariant todo <= m.Keys
      invariant Distinct(keys) && (set k | k in keys) == m.Keys - todo
      invariant |values| == |keys| && forall k :: 0 <= k < |keys| ==> keys[k] in m && values[k] == m[keys[k]]
      decreases todo
    {
      var t :| t in todo;
      assert forall k :: 0 <= k < |keys| ==> keys[k] in (set k | k in keys);
      assert (set k | k in keys + [t]) == (set k | k in keys) + {t};
      keys, values := keys + [t], values + [m[t]];
      todo := todo - {t};
    }
  }

  /** Adds w to the weight of t, inserting t when it is new. */
  function Accumulate(m: map<string, real>, t: string, w: real): (r: map<string, real>)
    ensures r.Keys == m.Keys + {t}
  {
    if t in m then m[t := m[t] + w] else m[t := w]
  }

  /** Each term with the sum of its weights, and the sum of all weights. */
  method QueryVector(terms: seq<string>, weights: seq<real>) returns (queryVector: map<string, real>, weightsSum: real)
    requires |terms| <= |weights|
    ensures queryVector.Keys == set t | t in terms
  {
    queryVector := map[];
    weightsSum := 0.0;
    for i := 0 to |terms|
      invariant queryVector.Keys == set k | 0 <= k < i :: terms[k]
    {
      weightsSum := weightsSum + weights[i];
      queryVector := Accumulate(queryVector, terms[i], weights[i]);
    }
  }

  /** Every weight divided by d, as the normalising loops do. */
  method DivideAll(m: map<string, real>, d: real) returns (r: map<string, real>)
    ensures r.Keys == m.Keys
    ensures forall t :: t in r ==> r[t] == Div(m[t], d)
  {
    r := map[];
    var todo := m.Keys;
    while todo != {}
      invariant todo <= m.Keys
      invariant r.Keys == m.Keys - todo
      invariant forall t :: t in r ==> r[t] == Div(m[t], d)
      decreases todo
    {
      var t :| t in todo;
      r := r[t := Div(m[t], d)];
      todo := todo - {t};
    }
  }

  /** The document vector's normalised term frequencies added to sum. */
  method AddNormalised(sum: map<string, real>, documentVector: map<string, int>) returns (r: map<string, real>)
    ensures r.Keys == sum.Keys + documentVector.Keys
  {
    var tfSum := 0;
    var rest := documentVector.Keys;
    while rest != {}
      decreases rest
    {
      var t :| t in rest;
      tfSum := tfSum + documentVector[t];
      rest := rest - {t};
    }
    r := sum;
    rest := documentVector.Keys;
    while rest != {}
      invariant rest <= documentVector.Keys
      invariant r.Keys == sum.Keys + (documentVector.Keys - rest)
      decreases rest
    {
      var t :| t in rest;
      var tfNorm := Div(documentVector[t] as real, tfSum as real);
      r := Accumulate(r, t, tfNorm);
      rest := rest - {t};
    }
  }

  /** The sum of the relevant documents' normalised term vectors, and how
      many documents were relevant. */
  method DocumentVectorSum(results: PostingsList, docIsRelevant: array<bool>, vectors: map<int, map<string, int>>)
      returns (documentVectorSum: map<string, real>, numberOfRelevantDocs: nat)
    requires FeedbackDefined(results.list, docIsRelevant[..], vectors)
    ensures documentVectorSum.Keys == RelevantTerms(results.list, docIsRelevant[..], vectors, docIsRelevant.Length)
    ensures numberOfRelevantDocs <= docIsRelevant.Length
  {
    ghost var relevant := docIsRelevant[..];
    documentVectorSum := map[];
    numberOfRelevantDocs := 0;
    for i := 0 to docIsRelevant.Length
      invariant documentVectorSum.Keys == RelevantTerms(results.list, relevant, vectors, i)
      invariant numberOfRelevantDocs <= i
    {
      if docIsRelevant[i] {
        numberOfRelevantDocs := numberOfRelevantDocs + 1;
        var documentVector := vectors[results.Get(i).docID];
        documentVectorSum := AddNormalised(documentVectorSum, documentVector);
      }
    }
  }

  /** The merged weight of t: alpha times its query weight plus beta times
      its average document weight, a missing weight counting 0. */
  function MergedWeight(queryVector: map<string, real>, averageDocumentVector: map<string, real>, t: string): real
  {
    (if t in queryVector then queryVector[t] * Alpha else 0.0)
    + (if t in averageDocumentVector then averageDocumentVector[t] * Beta else 0.0)
  }

  /** alpha times the query vector plus beta times the average document vector. */
  method Merge(queryVector: map<string, real>, averageDocumentVector: map<string, real>) returns (mergedVector: map<string, real>)
    ensures mergedVector.Keys == queryVector.Keys + averageDocumentVector.Keys
    ensures forall t :: t in mergedVector ==> mergedVector[t] == MergedWeight(queryVector, averageDocumentVector, t)
  {
    mergedVector := map[];
    var todo := queryVector.Keys;
    while todo != {}
      invariant todo <= queryVector.Keys
      invariant mergedVector.Keys == queryVector.Keys - todo
      invariant forall t :: t in mergedVector ==> mergedVector[t] == queryVector[t] * Alpha
      decreases todo
    {
      var t :| t in todo;
      mergedVector := mergedVector[t := queryVector[t] * Alpha];
      todo := todo - {t};
    }
    todo := averageDocumentVector.Keys;
    while todo != {}
      invariant todo <= averageDocumentVector.Keys
      invariant mergedVector.Keys == queryVector.Keys + (averageDocumentVector.Keys - todo)
      invariant forall t :: t in mergedVector ==>
        mergedVector[t] == MergedWeight(queryVector, averageDocumentVector - todo, t)
      decreases todo
    {
      var t :| t in todo;
      mergedVector := Accumulate(mergedVector, t, averageDocumentVector[t] * Beta);
      todo := todo - {t};
    }
  }

  class Query {
    var terms: seq<string>
    var weights: seq<real>

    /** Query(): no terms. */
    constructor ()
      ensures terms == [] && weights == []
    {
      terms := [];
      weights := [];
    }

    /** Query(queryString): one term of weight 1 per StringTokenizer token. */
    constructor FromString(queryString: string)
      ensures terms == Tokens(queryString, DefaultDelimiters)
      ensures |weights| == |terms| && forall k :: 0 <= k < |weights| ==> weights[k] == 1.0
    {
      terms := [];
      weights := [];
      new;
      var s := queryString;
      var pos := 0;
      while pos < |s|
        invariant 0 <= pos <= |s|
        invariant terms + Tokens(s[pos..], DefaultDelimiters) == Tokens(s, DefaultDelimiters)
        invariant |weights| == |terms| && forall k :: 0 <= k < |weights| ==> weights[k] == 1.0
      {
        assert s[pos..][1..] == s[pos + 1..];
        if s[pos] in DefaultDelimiters {
          pos := pos + 1;
        } else {
          var n := RunLength(s[pos..], DefaultDelimiters);
          assert s[pos..][..n] == s[pos..pos + n] && s[pos..][n..] == s[pos + n..];
          terms := terms + [s[pos..pos + n]];
          weights := weights + [1.0];
          pos := pos + n;
        }
      }
      assert s[pos..] == [];
    }

    /** size(): the number of terms. */
    function Size(): (n: nat)
      reads this
      ensures n == |terms|
    {
      |terms|
    }

    /** copy(): a fresh query with the same terms and weights. */
    method Copy() returns (q: Query)
      ensures fresh(q) && q.terms == terms && q.weights == weights
    {
      q := new Query();
      q.terms := terms;
      q.weights := weights;
    }

    /**
     * relevanceFeedback(results, docIsRelevant, indexer): the new term list
     * holds each old query term and each term of a relevant document's term
     * vector exactly once, with its merged weight beside it.
     */
    method RelevanceFeedback(results: PostingsList, docIsRelevant: array<bool>, vectors: map<int, map<string, int>>)
      requires |terms| <= |weights|
      requires FeedbackDefined(results.list, docIsRelevant[..], vectors)
      modifies this
      ensures Distinct(terms) && |weights| == |terms|
      ensures (set t | t in terms) == (set t | t in old(terms))
        + RelevantTerms(results.list, docIsRelevant[..], vectors, docIsRelevant.Length)
    {
      var queryVector, weightsSum := QueryVector(terms, weights);
      queryVector := DivideAll(queryVector, weightsSum);
      var documentVectorSum, numberOfRelevantDocs := DocumentVectorSum(results, docIsRelevant, vectors);
      var averageDocumentVector := DivideAll(documentVectorSum, numberOfRelevantDocs as real);
      var mergedVector := Merge(queryVector, averageDocumentVector);
      terms, weights := Enumerate(mergedVector);
    }
  }
}
