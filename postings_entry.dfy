/**
 * One document's record in a postings list: the document, the token offsets
 * at which the term occurs in it, and a score used by ranked retrieval.
 */
module Entries {

  /** The score is a Java double; it is modelled as a real number. */
  datatype PostingsEntry = PostingsEntry(docID: int, score: real, positions: seq<int>)

  /** The term frequency of an entry: how many offsets it records. */
  function Tf(e: PostingsEntry): nat
  {
    |e.positions|
  }

  /** `new PostingsEntry(docID)`: no offsets yet, and the score's default 0. */
  function NewEntry(docID: int): (e: PostingsEntry)
    ensures e.docID == docID && e.positions == [] && e.score == 0.0
    ensures Tf(e) == 0
  {
    PostingsEntry(docID, 0.0, [])
  }

  /** `new PostingsEntry(docID, offset)`: exactly the one offset. */
  function NewEntryAt(docID: int, offset: int): (e: PostingsEntry)
    ensures e.docID == docID && e.positions == [offset] && e.score == 0.0
    ensures Tf(e) == 1
  {
    PostingsEntry(docID, 0.0, [offset])
  }

  /** The entry with one more offset recorded at the end. */
  function WithOffset(e: PostingsEntry, offset: int): (r: PostingsEntry)
    ensures r.docID == e.docID && r.score == e.score
    ensures r.positions == e.positions + [offset]
  {
    e.(positions := e.positions + [offset])
  }

  /** tf() follows the positions list as it grows. */
  lemma TfFollowsPositions(e: PostingsEntry, offset: int)
    ensures Tf(WithOffset(e, offset)) == Tf(e) + 1
  {
  }

  /** `compareTo`: Double.compare(other.score, score), so that sorting puts
      higher scores first. */
  function CompareTo(self: PostingsEntry, other: PostingsEntry): (r: int)
    ensures r < 0 <==> self.score > other.score
    ensures r == 0 <==> self.score == other.score
    ensures r > 0 <==> self.score < other.score
  {
    if other.score < self.score then -1
    else if other.score > self.score then 1
    else 0
  }

  /** The comparison is antisymmetric, as Comparable requires. */
  lemma CompareToAntisymmetric(a: PostingsEntry, b: PostingsEntry)
    ensures CompareTo(a, b) == -CompareTo(b, a)
  {
  }

  /** The comparison is transitive, as Comparable requires. */
  lemma CompareToTransitive(a: PostingsEntry, b: PostingsEntry, c: PostingsEntry)
    requires CompareTo(a, b) <= 0 && CompareTo(b, c) <= 0
    ensures CompareTo(a, c) <= 0
  {
  }
}
