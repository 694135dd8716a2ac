# Postings index, query evaluation and Monte-Carlo PageRank, in Dafny

This project models the core of a small information-retrieval system from a
course assignment. It has two parts.

**The index (`ir/`).**
- A postings entry records one document: its ID, the token offsets at which a
  term occurs in it, and a score.
- A postings list keeps its entries in an array list, plus a hash set of their
  document IDs.
- The hashed index maps each term to its postings list.
- `insert(token, docID, offset)` builds that map. Boolean queries are answered
  by a merge intersection over lists that are ascending by document ID. Phrase
  queries are answered by a positional intersection. Queries of more than one
  term are chained, least frequent term first.
- The biword index keys its lists by pairs of consecutive words of a document.
- A query is a list of terms with weights. It is built from a string and can
  be expanded by relevance feedback.

**The link graph and PageRank (`pagerank/PageRank.java`).**
- `readDocs` reads lines `title;target1,target2,...`. It numbers each title
  the first time it meets it, whether as a source or as a target. It records
  each distinct edge once, counts the outlinks of every document, and counts
  the sinks (documents with no outlinks).
- Five Monte-Carlo estimators count the visits of random walks over that
  graph.

The model is organised by file:
- `postings_entry.dfy` (module `Entries`): the entry, as a datatype.
- `postings_list.dfy` (module `Postings`): the list.
  - It is a class with the fields `list` and `docIDs`.
  - Each method is proved against a function on a `Snapshot` value of those
    two fields.
  - `Build` folds a sequence of `add(docID, offset)` calls into a list.
    `BuildOrdered` proves what such a fold gives when the documents come in
    order.
- `hashed_index.dfy` (module `Hashed`): the hashed index.
  - It is a class whose `index` field maps terms to list objects.
  - Ghost fields `lists`, `Repr` and `owner` hold the value view and make sure
    that distinct terms own distinct list objects.
  - `IndexOf` gives the index after a sequence of inserts, and lemmas describe
    what it contains.
  - The two merge loops are proved against the sets of document IDs of their
    inputs.
- `biword_index.dfy` (module `Biword`): the biword index. It is a class over
  a state value, and `Run` folds a sequence of inserts.
- `query.dfy` (module `Queries`): the query class and the steps of relevance
  feedback.
- `tokenizer.dfy` (module `Tokenizer`): the part of `java.util.StringTokenizer`
  that both parts use, as a function.
- `link_graph.dfy` (module `LinkGraph`): the graph `readDocs` builds, as a value.
  - The parse is a fold over the lines.
  - Two reference definitions describe the result: the titles in first-seen
    order (`FirstSeen`) and the listed (source, target) pairs (`ListedLinks`).
  - It also holds the invariant that the parse keeps (`WellFormed`).
- `pagerank.dfy` (modules `Draws`, `PageRanking`): the `PageRank` class.
  - It has the tables `docNumber`, `docName`, `link`, `out` and
    `numberOfSinks`.
  - `ReadDocs` is proved equal to the fold.
  - The walk methods are proved to add the right number of visits to the
    count array.
  - The random number generator is a class over two given streams of
    outcomes.

## Model

| member | source | states |
|---|---|---|
| Entries.NewEntry | ir/PostingsEntry.java:21-23 | a new entry has the given document, no offsets, score 0 and tf 0 |
| Entries.NewEntryAt | ir/PostingsEntry.java:25-28 | a new entry with an offset has exactly that one offset, so tf is 1 |
| Entries.WithOffset | ir/PostingsList.java:88-89 | adding an offset keeps the document and the score and appends the offset at the end |
| Entries.TfFollowsPositions | ir/PostingsEntry.java:30-32 | tf() grows by one with each offset added |
| Entries.CompareTo | ir/PostingsEntry.java:40-42 | compareTo is negative, zero or positive exactly when this score is higher than, equal to or lower than the other's (descending order) |
| Entries.CompareToAntisymmetric | ir/PostingsEntry.java:40-42 | swapping the arguments negates the comparison |
| Entries.CompareToTransitive | ir/PostingsEntry.java:40-42 | the comparison is transitive, as Comparable requires |
| Postings.PostingsList.constructor | ir/PostingsList.java:25-30 | a new list has no entries and no IDs |
| Postings.PostingsList.AddAll | ir/PostingsList.java:36-38 | the other list's entries are appended in order, the ID set is left unchanged, and every recorded ID still has an entry |
| Postings.PostingsList.Size | ir/PostingsList.java:41-43 | size() is the number of entries |
| Postings.PostingsList.Get | ir/PostingsList.java:46-48 | get(i) is the i-th entry |
| Postings.PostingsList.Contains | ir/PostingsList.java:93-95 | contains(d) is membership in the ID set, not a scan of the entries |
| Postings.PostingsList.Add | ir/PostingsList.java:50-61 | add(pe) appends pe for a new document; for a known document it adds pe's score to every entry of that document (WithEntry) |
| Postings.PostingsList.AddDoc | ir/PostingsList.java:76-81 | add(docID) appends an empty entry for a new document and does nothing for a known one (WithDoc) |
| Postings.PostingsList.AddPosition | ir/PostingsList.java:83-91 | add(docID, offset) makes a new entry for a new document; otherwise it extends the LAST entry's offsets (WithPosition) |
| Postings.WithPosition | ir/PostingsList.java:83-91 | add(docID, offset) keeps the invariant that every recorded ID has an entry |
| Postings.AddPositionUnseen | ir/PostingsList.java:84-86 | for a new document: one more entry, at the tail, holding just the offset, and the ID is recorded |
| Postings.AddPositionKnown | ir/PostingsList.java:87-90 | for a known document: same length and IDs, and only the last entry changes, gaining the offset |
| Postings.WithPositionsUnseen | ir/PostingsList.java:83-91 | successive add(d, o) calls for a new document make one entry at the tail holding exactly those offsets, in order |
| Postings.AddDocIdempotent | ir/PostingsList.java:76-81 | add(docID) is idempotent, and the ID is recorded afterwards |
| Postings.AddEntryNoDuplicate | ir/PostingsList.java:50-61 | add(pe) never makes a second entry for a document; for a known document only the scores of that document's entry change, by pe's score |
| Postings.Build | ir/PostingsList.java:83-91 | any sequence of add(docID, offset) calls from an empty list keeps every recorded ID backed by an entry |
| Postings.BuildOrdered | ir/PostingsList.java:83-95 | when calls come in non-decreasing docID order: the list is ascending with one entry per document; the ID set equals the documents named; each entry holds exactly its document's offsets, in call order |
| Hashed.InsertSpec | ir/HashedIndex.java:35-47 | insert on the index value keeps every list consistent; the empty token is ignored |
| Hashed.IndexOf | ir/HashedIndex.java:35-47 | the index after any sequence of inserts has only consistent lists |
| Hashed.IndexOfKeys | ir/HashedIndex.java:35-47 | the dictionary after a sequence of inserts is exactly the non-empty tokens inserted |
| Hashed.IndexOfLists | ir/HashedIndex.java:35-47 | each term's list is what the add calls for that term alone would build; inserts of other terms do not affect it |
| Hashed.ForwardPassOrdered | ir/HashedIndex.java:35-47 | when inserts come in non-decreasing docID order, every list is ascending, one entry per document, with exactly the offsets inserted for that term and document |
| Hashed.InsertByDf | ir/HashedIndex.java:146-168 | inserting a term into the frequency order keeps the same terms, plus the new one |
| Hashed.SortByDf | ir/HashedIndex.java:146-148 | the frequency sort is a permutation of the terms |
| Hashed.SortByDfSorted | ir/HashedIndex.java:146-168 | the frequency sort orders terms by ascending postings size, an absent term counting 0 |
| Hashed.CommonDocsPermutation | ir/HashedIndex.java:131-144 | reordering the query terms does not change the set of documents that contain them all |
| Hashed.ScanOffsets | ir/HashedIndex.java:189-210 | every offset handed to add(docID, ps) is an offset of the second word directly after one of the first; when the second word's offsets are in order and some pair is adjacent, at least one is handed over |
| Hashed.IntersectionSize | ir/HashedIndex.java:107-129 | an intersection is no longer than either input |
| Hashed.IntersectionCommutes | ir/HashedIndex.java:107-129 | intersecting in either order gives the same list |
| Hashed.PhraseDocs | ir/HashedIndex.java:170-219 | a phrase answer only holds documents that are in both lists |
| Hashed.AscendingDetermined | ir/HashedIndex.java:107-129 | two ascending lists with the same document IDs agree entry by entry |
| Hashed.NewListAt | ir/HashedIndex.java:39-42 | a fresh list after one add(docID, offset) |
| Hashed.AddPositions | ir/HashedIndex.java:206-208 | the answer receives add(docID, ps) for each offset in turn |
| Hashed.PhraseStep | ir/HashedIndex.java:177-216 | one merge step keeps the merge frontier and the partial phrase answer, and moves at least one side forward |
| Hashed.HashedIndex.constructor | ir/HashedIndex.java:29 | a new index is empty |
| Hashed.HashedIndex.Lists | ir/HashedIndex.java:29 | the map of terms to lists, read as values, is the ghost view and has consistent lists |
| Hashed.HashedIndex.Insert | ir/HashedIndex.java:35-47 | insert follows InsertSpec; an existing term's list object is reused, and a new term gets a fresh list |
| Hashed.HashedIndex.AddList | ir/HashedIndex.java:39-43 | a term not yet in the index receives its new list |
| Hashed.HashedIndex.InsertKnown | ir/HashedIndex.java:37-43 | a known term's own list grows by add(docID, offset), and no other list changes |
| Hashed.HashedIndex.GetDictionary | ir/HashedIndex.java:53-55 | the dictionary is the index's terms, none of them empty |
| Hashed.HashedIndex.GetPostings | ir/HashedIndex.java:62-64 | getPostings is null exactly for a term not in the index, and otherwise that term's list |
| Hashed.HashedIndex.Intersect | ir/HashedIndex.java:107-129 | a fresh list of blank entries; for ascending inputs it is ascending and holds exactly the documents of both |
| Hashed.HashedIndex.PositionalIntersect | ir/HashedIndex.java:170-219 | for ascending inputs: an ascending answer whose every entry is a document of both lists with second-word offsets directly after a first-word offset; every document of both with an adjacent pair (second word's offsets in order) is in it |
| Hashed.HashedIndex.CompareStrings | ir/HashedIndex.java:150-168 | the comparator orders terms by postings size, an absent term counting 0, in all three directions |
| Hashed.HashedIndex.SortedByCompareStrings | ir/HashedIndex.java:150-168 | being sorted by frequency is being sorted by the comparator |
| Hashed.HashedIndex.FrequencySort | ir/HashedIndex.java:146-148 | the result is a permutation of the terms, least frequent first |
| Hashed.HashedIndex.Combine | ir/HashedIndex.java:137-140 | an intersection query intersects the document sets; a phrase query keeps a subset of them; any other query type keeps the running result |
| Hashed.HashedIndex.Chain | ir/HashedIndex.java:134-143 | the chained loop consumes terms from the front and stops early only on an empty result; for ascending lists it yields the common documents of all terms (a subset of them for a phrase) |
| Hashed.HashedIndex.IntersectTerms | ir/HashedIndex.java:131-144 | an intersection query sorts the terms by frequency first; a phrase keeps word order; a single term gives its own list; the result is as for Chain |
| Hashed.HashedIndex.Search | ir/HashedIndex.java:70-74 | search outside ranked retrieval returns the chained intersection: a single term gives its own list, an intersection sorts the terms by frequency and a phrase keeps word order, the result for ascending lists holds the common documents (a subset for a phrase) in ascending order, and the query keeps exactly the unused tail of its (sorted) term list |
| Biword.ListOf | ir/BiwordIndex.java:28 | a pair without a list reads as the empty list |
| Biword.Step | ir/BiwordIndex.java:35-54 | one insert on the state keeps every list consistent |
| Biword.StepEffect | ir/BiwordIndex.java:35-54 | insert remembers the word and document; a new document indexes nothing; otherwise exactly the pair (previous word, token) gains the call, and every other pair is untouched |
| Biword.Run | ir/BiwordIndex.java:35-54 | any sequence of inserts keeps every list consistent |
| Biword.RunRemembersLast | ir/BiwordIndex.java:36-40 | after a sequence of inserts the state remembers the last call |
| Biword.RunKeys | ir/BiwordIndex.java:42-48 | the pairs with a list are exactly the pairs of consecutive calls within one document |
| Biword.RunLists | ir/BiwordIndex.java:46-52 | each pair's list is what the add calls for that pair alone would build |
| Biword.FirstOfDocumentUnpaired | ir/BiwordIndex.java:36-40 | the first call of a new document adds nothing to the calls of any bigram, so the set of bigrams is unchanged |
| Biword.SearchGuard | ir/BiwordIndex.java:78-89 | search refuses (null) anything but a ranked query over bigrams |
| Biword.BiwordIndex.constructor | ir/BiwordIndex.java:28-30 | a new index has no lists, no previous word and previous docID -1 |
| Biword.BiwordIndex.Insert | ir/BiwordIndex.java:35-54 | the fields change as Step says |
| Biword.BiwordIndex.GetDictionary | ir/BiwordIndex.java:59-62 | not implemented: always null |
| Biword.BiwordIndex.GetPostings | ir/BiwordIndex.java:69-72 | not implemented: always null |
| Queries.Enumerate | ir/Query.java:140-141 | keySet() and values() of one map: each key once, with its own value beside it |
| Queries.Accumulate | ir/Query.java:70-75 | adding a weight to a term's entry makes the term a key |
| Queries.QueryVector | ir/Query.java:66-76 | the query vector has exactly the query's terms as keys |
| Queries.DivideAll | ir/Query.java:79-81 | normalising keeps the keys and divides each weight |
| Queries.AddNormalised | ir/Query.java:94-113 | adding one document's normalised term vector adds that document's terms to the keys |
| Queries.DocumentVectorSum | ir/Query.java:84-114 | the summed vector has exactly the terms of the relevant documents; the relevant count is at most the number of flags |
| Queries.Merge | ir/Query.java:125-138 | the merged vector has the union of the keys, each with alpha times its query weight plus beta times its document weight |
| Queries.Query.constructor | ir/Query.java:25-26 | the empty query |
| Queries.Query.FromString | ir/Query.java:31-37 | the terms are the string's whitespace tokens in order, each with weight 1 |
| Queries.Query.Size | ir/Query.java:42-44 | size() is the number of terms |
| Queries.Query.Copy | ir/Query.java:49-54 | a fresh query with the same terms and weights |
| Queries.Query.RelevanceFeedback | ir/Query.java:59-142 | the new terms are distinct, each with a weight, and they are exactly the old terms plus the terms of the relevant documents |
| Tokenizer.RunLength | ir/Query.java:32-34 | the length of the longest delimiter-free prefix |
| Tokenizer.RunLengthIs | ir/Query.java:32-34 | that length is determined by its contract |
| Tokenizer.TokensAreTokens | ir/Query.java:32-34 | every token is non-empty and free of delimiters |
| Tokenizer.TokensSplit | pagerank/PageRank.java:113-115 | a delimiter ends every token: the tokens of a + [d] + b are the tokens of a followed by those of b |
| Tokenizer.TokensOfToken | pagerank/PageRank.java:113-115 | a single token is tokenised to itself |
| Tokenizer.TokensOfJoin | pagerank/PageRank.java:113-115 | joining tokens with a delimiter and tokenising again gives back the same tokens |
| LinkGraph.SemicolonIndex | pagerank/PageRank.java:102 | indexOf(";") finds the first semicolon |
| LinkGraph.KnownIffNamed | pagerank/PageRank.java:104-111 | a title has a number exactly when it is in the name table |
| LinkGraph.SinkIffNoKey | pagerank/PageRank.java:125-131 | a document has no outlinks exactly when link has no key for it |
| LinkGraph.VisitKeeps | pagerank/PageRank.java:104-111 | numbering a title keeps the tables inverse, and appends a new title at the next free number |
| LinkGraph.AddLinkKeeps | pagerank/PageRank.java:125-131 | recording an edge keeps the invariant and adds exactly that edge |
| LinkGraph.VisitEdges | pagerank/PageRank.java:116-122 | numbering a title does not change the edges |
| LinkGraph.LinkToKeeps | pagerank/PageRank.java:115-131 | one target keeps the invariant, keeps earlier numbers, and adds the one edge from the source |
| LinkGraph.AddTargetsKeeps | pagerank/PageRank.java:114-132 | the inner loop keeps the invariant and earlier numbers |
| LinkGraph.ParseLineKeeps | pagerank/PageRank.java:102-132 | one line keeps the invariant and earlier numbers |
| LinkGraph.ParseLinesKeeps | pagerank/PageRank.java:101-133 | any file keeps the tables inverse with dense numbers, never renumbers, and stays within the capacity |
| LinkGraph.AddTargetsComplete | pagerank/PageRank.java:114-132 | without filling the table, the targets are numbered in first-seen order and exactly their edges from the source are added |
| LinkGraph.ParseLineComplete | pagerank/PageRank.java:102-132 | one line numbers its title, then its targets, in first-seen order, and adds exactly its listed edges |
| LinkGraph.ParseLinesComplete | pagerank/PageRank.java:101-133 | without filling the table, numbers go to titles in first-seen order, and the edges are exactly the listed pairs |
| LinkGraph.ReadDocsGraph | pagerank/PageRank.java:95-154 | for a whole file: the tables are inverse, and i links to j exactly when some line of title i lists title j |
| LinkGraph.FirstSeenAppend | pagerank/PageRank.java:101-133 | first-seen order over a concatenation is first-seen order over each part in turn |
| Draws.Random.constructor | pagerank/PageRank.java:255 | the generator starts at the beginning of both streams |
| Draws.Random.NextIsBored | pagerank/PageRank.java:255-257 | nextDouble() <= BORED is the next outcome of the bored stream |
| Draws.Random.NextInt | pagerank/PageRank.java:289-291 | nextInt(bound) is in [0, bound) and comes from the picks stream |
| PageRanking.SumUpdate | pagerank/PageRank.java:164 | raising one count changes the total by the same amount |
| PageRanking.SumZeros | pagerank/PageRank.java:161 | a new count array sums to zero |
| PageRanking.ZerosAreSinks | pagerank/PageRank.java:141-144 | where out holds the outlink counts, its zeros are the sinks |
| PageRanking.SumSplit | pagerank/PageRank.java:222-225 | the running total over a prefix grows by the next count |
| PageRanking.PageRank.constructor | pagerank/PageRank.java:23-51 | the field initialisers: empty tables, out all zero, no sinks |
| PageRanking.PageRank.EmptyLoaded | pagerank/PageRank.java:96 | empty tables hold the empty graph with zero documents |
| PageRanking.PageRank.Number | pagerank/PageRank.java:104-111 | lookup-or-number of a title, as Visit on the graph value |
| PageRanking.PageRank.Link | pagerank/PageRank.java:125-131 | records the edge once and counts it in out, as AddLink |
| PageRanking.PageRank.AddOutlink | pagerank/PageRank.java:115-131 | one target, as LinkTo |
| PageRanking.PageRank.AddOutlinkAt | pagerank/PageRank.java:114-132 | one pass of the inner loop is one step of AddTargets |
| PageRanking.PageRank.AddOutlinks | pagerank/PageRank.java:114-132 | the inner loop equals AddTargets and keeps the tables loaded |
| PageRanking.PageRank.CountSinks | pagerank/PageRank.java:141-144 | numberOfSinks grows by the number of zero counts among the first fileIndex |
| PageRanking.PageRank.ReadLine | pagerank/PageRank.java:102-132 | one line equals ParseLine |
| PageRanking.PageRank.ReadLineAt | pagerank/PageRank.java:101-133 | one pass of the outer loop is one step of ParseLines |
| PageRanking.PageRank.ReadLines | pagerank/PageRank.java:101-133 | the outer loop equals ParseLines from the empty graph |
| PageRanking.PageRank.ReadDocs | pagerank/PageRank.java:95-154 | the tables equal the parse of the file and are well formed; numberOfSinks grows by the number of sinks; out holds the outlink counts; the tables form a graph the walks can run on, which is empty when the file is |
| PageRanking.PageRank.GetP | pagerank/PageRank.java:384-394 | getP(i, j) is 1 exactly when i links to j, else 0 |
| PageRanking.PageRank.RandomPage | pagerank/PageRank.java:289-291 | a page in [0, n) |
| PageRanking.PageRank.RandomPageFrom | pagerank/PageRank.java:293-303 | some successor of the page; the -1 fall-through is unreachable |
| PageRanking.PageRank.Walk | pagerank/PageRank.java:254-265 | the walk ends (on the first bored draw at the latest) on a page in [0, n) |
| PageRanking.PageRank.CompleteWalk | pagerank/PageRank.java:267-287 | counts only increase; a walk that is not dangling-aware adds exactly one visit per step t..T; a dangling-aware one adds at least one and at most that many |
| PageRanking.PageRank.EndpointRandomStart | pagerank/PageRank.java:160-173 | N walks add N end-point counts in all, before normalising |
| PageRanking.PageRank.EndpointCyclicStart | pagerank/PageRank.java:176-191 | m walks from each of n pages add n * m counts, the divisor N; n = 0 gives an empty array |
| PageRanking.PageRank.EndpointsFrom | pagerank/PageRank.java:181-183 | m walks from one page add m counts |
| PageRanking.PageRank.WalksFrom | pagerank/PageRank.java:199-201 | m complete walks from one page add m * T visits, or between m and m * T with the dangling test |
| PageRanking.PageRank.CompletePath | pagerank/PageRank.java:194-209 | n * m * T visits in all, the divisor N * T of the source; n = 0 gives an empty array |
| PageRanking.PageRank.TotalVisits | pagerank/PageRank.java:222-225 | numberOfVisits is the sum of the counts |
| PageRanking.PageRank.CompletePathDangling | pagerank/PageRank.java:212-232 | the total is the sum of the counts, between n * m and n * m * T; n = 0 gives an empty array and a zero total |
| PageRanking.PageRank.CompletePathRandomStart | pagerank/PageRank.java:235-252 | the total is the sum of the counts, between N and N * T |

## Left out

- Ranked retrieval is not modelled: `rankedRetrieval`, `cosineScore`, `idf`, and the `sort` of the postings list and of BiwordIndex. They are floating-point scoring over a document-length table that is not part of this model.
- The iterative PageRank solver, `diffNorm`, the normalising divisions of methods 1–5, `printTop` and `writeToDisk` are not modelled. The five methods are modelled up to their integer visit counts, which are kept in `int` arrays instead of `double` arrays.
- File and console I/O are not modelled. `readDocs` takes the file's lines as a sequence; a missing file and read errors are not modelled, nor are the messages printed to the error stream.
- `java.util.Random` is replaced by two given streams of outcomes: whether the k-th `nextDouble()` is at most BORED, and the raw value behind the k-th `nextInt(bound)`. The streams are assumed to end every stretch of draws in a bored one. A fair generator does this with probability 1, and it is what makes `walk` terminate.
- The iteration order of Java's `HashMap`/`Hashtable` key sets is not specified. `Enumerate`, `DivideAll`, `Merge` and `RandomPageFrom` take the keys in an arbitrary order.
- Postings entries are values. So the model does not capture `addAll`, `add(pe)` and `cosineScore` sharing one entry object between lists, nor a change through one list showing in another.
- The lists of BiwordIndex are values in a map rather than shared `PostingsList` objects.
- The doubles of the source (scores, query weights) are modelled as real numbers. Division by zero gives 0 instead of NaN or infinity.
- `Hashed.SortByDf`: `Collections.sort` is modelled as an insertion sort by document frequency; stability is not stated.
- `Hashed.HashedIndex.Chain`: requires every term to be in the index when there is more than one term. This is stronger than the source (ir/HashedIndex.java:136-141), which returns normally without looking up the later terms when a phrase query's running result is already empty, and for a query type that is neither intersection nor phrase. The source throws NullPointerException only when an absent term's null list reaches `intersect` or `positionalIntersect`, or when the first term is absent and more terms follow; those exception paths are not modelled. It also requires at least one term: for an empty query `getFirst()` throws NoSuchElementException (ir/HashedIndex.java:134), which is not modelled.
- `Hashed.HashedIndex.IntersectTerms`: same requirements as Chain, for the same reasons, so it too leaves out the early normal returns of an absent later term and the NullPointerException and NoSuchElementException paths.
- `Hashed.HashedIndex.Search`: same requirements as Chain, for the same reasons, so it too leaves out the early normal returns of an absent later term and the NullPointerException and NoSuchElementException paths. It also requires a non-ranked query type, because ranked retrieval is left out.
- `Hashed.HashedIndex.PositionalIntersect`: states which documents the answer holds and that each offset follows the first word. It does not state the exact offset sequence, which repeats offsets because the window is emitted after every step.
- `Hashed.ScanOffsets`: states soundness of the emitted offsets and that at least one is emitted; it does not give the exact sequence with its repetitions.
- `Queries.Query.RelevanceFeedback`: states the new term set and that each term has one weight. It does not state the weight values, which are double arithmetic.
- `Queries.Query.RelevanceFeedback`: requires `FeedbackDefined`, so the IndexOutOfBoundsException of `results.get(i)` (ir/Query.java:92) and the NullPointerException of a relevant document without a term vector (ir/Query.java:95) are not modelled.
- `Queries.QueryVector`: states the keys, not the weights.
- `Queries.AddNormalised`: states the keys, not the normalised frequencies.
- `Queries.DocumentVectorSum`: states the keys and a bound on the count, not the sums.
- `Queries.DocumentVectorSum`: requires `FeedbackDefined`, which excludes two exception paths of the source. A relevant flag at an index of at least `results.size()` makes `results.get(i)` throw IndexOutOfBoundsException (ir/Query.java:92). A relevant document without a term vector makes the loop over `documentVector.values()` throw NullPointerException (ir/Query.java:95).
- `PageRanking.PageRank.RandomPageFrom`: states that the result is a successor of the page. It does not state which one, because it depends on the key order of the hash table.
- `PageRanking.PageRank.Walk`: states the range of the end page, not its distribution. The tail recursion is written as a loop.
- `PageRanking.PageRank.ReadDocs`: requires every line to contain a semicolon. Otherwise `substring(0, -1)` throws an exception that is not caught, and that path is not modelled.
- `PageRanking.PageRank.ReadDocs`: requires the tables to start empty, as they are when the constructor calls it.
- `PageRanking.PageRank.EndpointRandomStart`: requires `0 < n || N <= 0`. With no documents and N > 0, `randomPage(0)` calls `nextInt(0)`, which throws IllegalArgumentException; an empty file reaches this through the constructor (pagerank/PageRank.java:78-79), and that exception path is not modelled.
- `PageRanking.PageRank.CompletePathRandomStart`: requires `0 < n || N <= 0`, for the same reason as EndpointRandomStart. The driver calls this method on an empty file (pagerank/PageRank.java:319) and catches the IllegalArgumentException (pagerank/PageRank.java:325); that path is not modelled.
- `PageRanking.PageRank.CompleteWalk`: requires the count array to be a different array from `out`. The source has two separate arrays.
- `docName` is modelled as the sequence of its filled slots rather than a 2,000,000-slot array.
- The `int` arithmetic of the source does not overflow in the model. For example, `n * m` in methods 2–4 and the counts are unbounded integers.
