/**
 * The link graph that readDocs builds from a link file, as a value, and the
 * parse as a function of the file's lines. Every line reads
 * `title;target1,target2,...`; titles get dense IDs in the order they are
 * first seen, whether as a source or as a target.
 */
module LinkGraph {
  import opened Tokenizer

  /** The capacity of the document table. */
  const MaxNumberOfDocs: nat := 2000000

  /** The separator between the targets of a line. */
  const TargetDelimiters: set<char> := {','}

  /**
   * docNumber (title -> ID), docName (ID -> title, the first |names| slots of
   * the table) and link (ID -> the IDs it links to; no key for a sink).
   * The number of documents read is |names|; out[i] is |link[i]|.
   */
  datatype Graph = Graph(ids: map<string, nat>, names: seq<string>, link: map<nat, set<nat>>)

  const Initial: Graph := Graph(map[], [], map[])

  /** The number of distinct successors of i: out[i]. */
  function OutOf(link: map<nat, set<nat>>, i: int): nat
  {
    if i in link then |link[i]| else 0
  }

  /** The invariant of the tables: docNumber and docName are inverse, IDs
      are dense in [0, |names|), and link only mentions such IDs, with a
      non-empty successor set for every key. */
  predicate WellFormed(g: Graph)
  {
    && |g.names| <= MaxNumberOfDocs
    && (forall t :: t in g.ids ==> 0 <= g.ids[t] < |g.names| && g.names[g.ids[t]] == t)
    && (forall k :: 0 <= k < |g.names| ==> g.names[k] in g.ids && g.ids[g.names[k]] == k)
    && (forall i :: i in g.link ==> 0 <= i < |g.names| && g.link[i] != {})
    && (forall i, j :: i in g.link && j in g.link[i] ==> 0 <= j < |g.names|)
  }

  lemma KnownIffNamed(g: Graph, t: string)
    requires WellFormed(g)
    ensures t in g.ids <==> t in g.names
  {
    if t in g.names {
      var k :| 0 <= k < |g.names| && g.names[k] == t;
    }
  }

  /** A node is a sink (out == 0) exactly when link has no key for it. */
  lemma SinkIffNoKey(g: Graph, i: int)
    requires WellFormed(g)
    ensures OutOf(g.link, i) == 0 <==> i !in g.link
  {
    if i in g.link {
      assert g.link[i] != {};
    }
  }

  /** The ID of a title: the known one, or the next free one. */
  function Visit(g: Graph, t: string): (r: (Graph, nat))
  {
    if t in g.ids then (g, g.ids[t])
    else (Graph(g.ids[t := |g.names|], g.names + [t], g.link), |g.names|)
  }

  /** The edge from -> to, recorded once however often it is listed. */
  function AddLink(g: Graph, from: nat, to: nat): Graph
  {
    g.(link := g.link[from := (if from in g.link then g.link[from] else {}) + {to}])
  }

  /** One pass of the inner loop: the target's ID, then the edge to it. */
  function LinkTo(g: Graph, from: nat, t: string): Graph
  {
    var v := Visit(g, t);
    AddLink(v.0, from, v.1)
  }

  /** The inner loop of readDocs: the targets of one line, while the table has room. */
  function AddTargets(g: Graph, from: nat, targets: seq<string>): Graph
    decreases |targets|
  {
    if targets == [] || |g.names| >= MaxNumberOfDocs then g
    else AddTargets(LinkTo(g, from, targets[0]), from, targets[1..])
  }

  /** Where line.indexOf(";") finds the first semicolon. */
  function SemicolonIndex(line: string): (index: nat)
    requires ';' in line
    ensures index < |line| && line[index] == ';' && ';' !in line[..index]
  {
    if line[0] == ';' then 0
    else
      assert ';' in line[1..];
      var k := SemicolonIndex(line[1..]);
      assert line[..k + 1] == [line[0]] + line[1..][..k];
      k + 1
  }

  /** The title of a line: everything before its first semicolon. */
  function Title(line: string): string
    requires ';' in line
  {
    line[..SemicolonIndex(line)]
  }

  /** The targets of a line: the comma-separated tokens after its first semicolon. */
  function Targets(line: string): seq<string>
    requires ';' in line
  {
    Tokens(line[SemicolonIndex(line) + 1..], TargetDelimiters)
  }

  predicate AllHaveSemicolon(lines: seq<string>)
  {
    forall k :: 0 <= k < |lines| ==> ';' in lines[k]
  }

  /** One line of the outer loop; the loop only enters it while the table has room. */
  function ParseLine(g: Graph, line: string): Graph
    requires ';' in line
  {
    var (h, from) := Visit(g, Title(line));
    AddTargets(h, from, Targets(line))
  }

  /** The outer loop of readDocs: lines until they run out or the table is full. */
  function ParseLines(g: Graph, lines: seq<string>): Graph
    requires AllHaveSemicolon(lines)
    decreases |lines|
  {
    if lines == [] || |g.names| >= MaxNumberOfDocs then g
    else ParseLines(ParseLine(g, lines[0]), lines[1..])
  }

  /** The inner loop's step and exit, one unfolding each. */
  lemma AddTargetsUnfold(g: Graph, from: nat, targets: seq<string>, m: nat)
    requires m <= |targets|
    ensures m < |targets| && |g.names| < MaxNumberOfDocs ==>
      AddTargets(g, from, targets[m..]) == AddTargets(LinkTo(g, from, targets[m]), from, targets[m + 1..])
    ensures m == |targets| || |g.names| >= MaxNumberOfDocs ==> AddTargets(g, from, targets[m..]) == g
  {
    if m < |targets| {
      assert targets[m..][0] == targets[m] && targets[m..][1..] == targets[m + 1..];
    }
  }

  /** The outer loop's step and exit, one unfolding each. */
  lemma ParseLinesUnfold(g: Graph, lines: seq<string>, k: nat)
    requires k <= |lines| && AllHaveSemicolon(lines)
    ensures AllHaveSemicolon(lines[k..])
    ensures k < |lines| && |g.names| < MaxNumberOfDocs ==>
      AllHaveSemicolon(lines[k + 1..]) &&
      ParseLines(g, lines[k..]) == ParseLines(ParseLine(g, lines[k]), lines[k + 1..])
    ensures k == |lines| || |g.names| >= MaxNumberOfDocs ==> ParseLines(g, lines[k..]) == g
  {
    if k < |lines| {
      assert lines[k..][0] == lines[k] && lines[k..][1..] == lines[k + 1..];
    }
  }

  /** The inner loop's exit. */
  lemma AddTargetsDone(g: Graph, from: nat, targets: seq<string>, m: nat)
    requires m <= |targets|
    requires m == |targets| || |g.names| >= MaxNumberOfDocs
    ensures AddTargets(g, from, targets[m..]) == g
  {
  }

  /** A line is its title's visit followed by its targets. */
  lemma ParseLineSteps(g: Graph, line: string)
    requires ';' in line
    ensures var v := Visit(g, line[..SemicolonIndex(line)]);
      ParseLine(g, line) == AddTargets(v.0, v.1, Tokens(line[SemicolonIndex(line) + 1..], TargetDelimiters))
  {
  }

  /** The outer loop's exit. */
  lemma ParseLinesDone(g: Graph, lines: seq<string>, k: nat)
    requires k <= |lines| && AllHaveSemicolon(lines[k..])
    requires k == |lines| || |g.names| >= MaxNumberOfDocs
    ensures ParseLines(g, lines[k..]) == g
  {
  }

  // ---------------------------------------------------------------------
  // The reference definitions: titles in first-seen order, and the listed links.

  /** seen extended by the titles of ts not seen before, in order of first appearance. */
  function FirstSeen(seen: seq<string>, ts: seq<string>): seq<string>
    decreases |ts|
  {
    if ts == [] then seen
    else FirstSeen(if ts[0] in seen then seen else seen + [ts[0]], ts[1..])
  }

  /** All titles of the lines as the parser meets them: each line's title, then its targets. */
  function AllTitles(lines: seq<string>): seq<string>
    requires AllHaveSemicolon(lines)
  {
    if lines == [] then [] else [Title(lines[0])] + Targets(lines[0]) + AllTitles(lines[1..])
  }

  /** The (source title, target title) pairs the lines list. */
  function ListedLinks(lines: seq<string>): set<(string, string)>
    requires AllHaveSemicolon(lines)
  {
    if lines == [] then {}
    else (set t | t in Targets(lines[0]) :: (Title(lines[0]), t)) + ListedLinks(lines[1..])
  }

  /** The edges of a graph, named by titles. */
  function Edges(g: Graph): set<(string, string)>
  {
    set i, j | i in g.link && j in g.link[i] && 0 <= i < |g.names| && 0 <= j < |g.names|
      :: (g.names[i], g.names[j])
  }

  // ---------------------------------------------------------------------
  // The invariant is kept.

  lemma VisitKeeps(g: Graph, t: string)
    requires WellFormed(g) && |g.names| < MaxNumberOfDocs
    ensures var (h, id) := Visit(g, t);
      && WellFormed(h) && 0 <= id < |h.names| && h.names[id] == t && h.ids[t] == id
      && h.link == g.link
      && h.names == (if t in g.names then g.names else g.names + [t])
  {
    KnownIffNamed(g, t);
    var (h, id) := Visit(g, t);
    if t !in g.ids {
      forall k | 0 <= k < |h.names| ensures h.names[k] in h.ids && h.ids[h.names[k]] == k {
        if k < |g.names| {
          assert h.names[k] == g.names[k];
        }
      }
    }
  }

  lemma AddLinkKeeps(g: Graph, from: nat, to: nat)
    requires WellFormed(g) && 0 <= from < |g.names| && 0 <= to < |g.names|
    ensures WellFormed(AddLink(g, from, to))
    ensures Edges(AddLink(g, from, to)) == Edges(g) + {(g.names[from], g.names[to])}
  {
    AddLinkEdgesWithin(g, from, to);
    AddLinkEdgesCover(g, from, to);
  }

  lemma AddLinkEdgesWithin(g: Graph, from: nat, to: nat)
    requires 0 <= from < |g.names| && 0 <= to < |g.names|
    ensures Edges(AddLink(g, from, to)) <= Edges(g) + {(g.names[from], g.names[to])}
  {
    var h := AddLink(g, from, to);
    forall e | e in Edges(h) ensures e in Edges(g) + {(g.names[from], g.names[to])} {
      var i, j :| i in h.link && j in h.link[i] && 0 <= i < |h.names| && 0 <= j < |h.names|
        && e == (h.names[i], h.names[j]);
      if !(i == from && j == to) {
        assert i in g.link && j in g.link[i];
      }
    }
  }

  lemma AddLinkEdgesCover(g: Graph, from: nat, to: nat)
    requires 0 <= from < |g.names| && 0 <= to < |g.names|
    ensures Edges(g) + {(g.names[from], g.names[to])} <= Edges(AddLink(g, from, to))
  {
    var h := AddLink(g, from, to);
    assert (g.names[from], g.names[to]) in Edges(h) by {
      assert from in h.link && to in h.link[from];
    }
    forall e | e in Edges(g) ensures e in Edges(h) {
      var i, j :| i in g.link && j in g.link[i] && 0 <= i < |g.names| && 0 <= j < |g.names|
        && e == (g.names[i], g.names[j]);
      assert i in h.link && j in h.link[i];
    }
  }

  /** A title seen for the first time leaves the edges alone. */
  lemma VisitEdges(g: Graph, t: string)
    requires WellFormed(g) && |g.names| < MaxNumberOfDocs
    ensures Edges(Visit(g, t).0) == Edges(g)
  {
    VisitKeeps(g, t);
    VisitEdgesWithin(g, t);
    VisitEdgesCover(g, t);
  }

  lemma VisitEdgesWithin(g: Graph, t: string)
    requires WellFormed(g)
    ensures Edges(Visit(g, t).0) <= Edges(g)
  {
    var h := Visit(g, t).0;
    forall e | e in Edges(h) ensures e in Edges(g) {
      var i, j :| i in h.link && j in h.link[i] && 0 <= i < |h.names| && 0 <= j < |h.names|
        && e == (h.names[i], h.names[j]);
      assert h.names[i] == g.names[i] && h.names[j] == g.names[j];
    }
  }

  lemma VisitEdgesCover(g: Graph, t: string)
    ensures Edges(g) <= Edges(Visit(g, t).0)
  {
    var h := Visit(g, t).0;
    assert h.names[..|g.names|] == g.names;
    forall e | e in Edges(g) ensures e in Edges(h) {
      var i, j :| i in g.link && j in g.link[i] && 0 <= i < |g.names| && 0 <= j < |g.names|
        && e == (g.names[i], g.names[j]);
      assert h.names[i] == g.names[i] && h.names[j] == g.names[j];
    }
  }

  /** The IDs and titles known before stay as they were. */
  predicate Extends(g: Graph, h: Graph)
  {
    |g.names| <= |h.names| && h.names[..|g.names|] == g.names
  }

  lemma ExtendsTransitive(g: Graph, h: Graph, r: Graph)
    requires Extends(g, h) && Extends(h, r)
    ensures Extends(g, r)
  {
    assert r.names[..|g.names|] == r.names[..|h.names|][..|g.names|];
  }

  lemma LinkToKeeps(g: Graph, from: nat, t: string)
    requires WellFormed(g) && 0 <= from < |g.names| && |g.names| < MaxNumberOfDocs
    ensures var h := LinkTo(g, from, t);
      && WellFormed(h) && Extends(g, h)
      && h.names == (if t in g.names then g.names else g.names + [t])
      && Edges(h) == Edges(g) + {(g.names[from], t)}
  {
    var v := Visit(g, t);
    VisitKeeps(g, t);
    VisitEdges(g, t);
    AddLinkKeeps(v.0, from, v.1);
    assert v.0.names[..|g.names|] == g.names;
    assert v.0.names[from] == g.names[from];
  }

  lemma {:induction false} AddTargetsKeeps(g: Graph, from: nat, targets: seq<string>)
    requires WellFormed(g) && 0 <= from < |g.names|
    ensures WellFormed(AddTargets(g, from, targets)) && Extends(g, AddTargets(g, from, targets))
    decreases |targets|
  {
    if targets != [] && |g.names| < MaxNumberOfDocs {
      LinkToKeeps(g, from, targets[0]);
      var h := LinkTo(g, from, targets[0]);
      AddTargetsKeeps(h, from, targets[1..]);
      ExtendsTransitive(g, h, AddTargets(h, from, targets[1..]));
    }
  }

  lemma ParseLineKeeps(g: Graph, line: string)
    requires WellFormed(g) && |g.names| < MaxNumberOfDocs && ';' in line
    ensures WellFormed(ParseLine(g, line)) && Extends(g, ParseLine(g, line))
  {
    var (h, from) := Visit(g, Title(line));
    VisitKeeps(g, Title(line));
    AddTargetsKeeps(h, from, Targets(line));
    ExtendsTransitive(g, h, ParseLine(g, line));
  }

  /**
   * Whatever the lines, the tables stay inverse to each other with dense
   * IDs, the earlier IDs and titles are never changed, and the number of
   * documents never exceeds the capacity.
   */
  lemma {:induction false} ParseLinesKeeps(g: Graph, lines: seq<string>)
    requires WellFormed(g) && AllHaveSemicolon(lines)
    ensures WellFormed(ParseLines(g, lines)) && Extends(g, ParseLines(g, lines))
    ensures |ParseLines(g, lines).names| <= MaxNumberOfDocs
    decreases |lines|
  {
    if lines != [] && |g.names| < MaxNumberOfDocs {
      ParseLineKeeps(g, lines[0]);
      var h := ParseLine(g, lines[0]);
      ParseLinesKeeps(h, lines[1..]);
      ExtendsTransitive(g, h, ParseLines(h, lines[1..]));
    }
  }

  // ---------------------------------------------------------------------
  // First-seen order and the links, when the table never filled up.

  lemma {:induction false} FirstSeenAppend(seen: seq<string>, a: seq<string>, b: seq<string>)
    ensures FirstSeen(seen, a + b) == FirstSeen(FirstSeen(seen, a), b)
    decreases |a|
  {
    if a == [] {
      assert a + b == b;
    } else {
      assert (a + b)[0] == a[0] && (a + b)[1..] == a[1..] + b;
      FirstSeenAppend(if a[0] in seen then seen else seen + [a[0]], a[1..], b);
    }
  }

  lemma PairsFromSplit(s: string, targets: seq<string>)
    requires targets != []
    ensures (set t | t in targets :: (s, t)) == {(s, targets[0])} + set t | t in targets[1..] :: (s, t)
  {
    assert forall t :: t in targets <==> t == targets[0] || t in targets[1..] by {
      assert targets == [targets[0]] + targets[1..];
    }
  }

  /** The targets of one line: titles met in first-seen order, and one
      edge from the source to each, when the table does not fill up. */
  lemma AddTargetsComplete(g: Graph, from: nat, targets: seq<string>)
    requires WellFormed(g) && 0 <= from < |g.names|
    requires |AddTargets(g, from, targets).names| < MaxNumberOfDocs
    ensures AddTargets(g, from, targets).names == FirstSeen(g.names, targets)
    ensures Edges(AddTargets(g, from, targets))
      == Edges(g) + set t | t in targets :: (g.names[from], t)
  {
    AddTargetsFirstSeen(g, from, targets);
    AddTargetsEdges(g, from, targets);
  }

  lemma {:induction false} AddTargetsFirstSeen(g: Graph, from: nat, targets: seq<string>)
    requires WellFormed(g) && 0 <= from < |g.names|
    requires |AddTargets(g, from, targets).names| < MaxNumberOfDocs
    ensures AddTargets(g, from, targets).names == FirstSeen(g.names, targets)
    decreases |targets|
  {
    if targets != [] {
      assert |g.names| < MaxNumberOfDocs;
      var h := LinkTo(g, from, targets[0]);
      assert AddTargets(g, from, targets) == AddTargets(h, from, targets[1..]);
      LinkToKeeps(g, from, targets[0]);
      AddTargetsFirstSeen(h, from, targets[1..]);
    }
  }

  lemma {:induction false} AddTargetsEdges(g: Graph, from: nat, targets: seq<string>)
    requires WellFormed(g) && 0 <= from < |g.names|
    requires |AddTargets(g, from, targets).names| < MaxNumberOfDocs
    ensures Edges(AddTargets(g, from, targets))
      == Edges(g) + set t | t in targets :: (g.names[from], t)
    decreases |targets|
  {
    if targets != [] {
      assert |g.names| < MaxNumberOfDocs;
      var h := LinkTo(g, from, targets[0]);
      assert AddTargets(g, from, targets) == AddTargets(h, from, targets[1..]);
      LinkToKeeps(g, from, targets[0]);
      assert h.names[from] == g.names[from] by {
        assert h.names[..|g.names|] == g.names;
      }
      AddTargetsEdges(h, from, targets[1..]);
      PairsFromSplit(g.names[from], targets);
    }
  }

  lemma ParseLineComplete(g: Graph, line: string)
    requires WellFormed(g) && |g.names| < MaxNumberOfDocs && ';' in line
    requires |ParseLine(g, line).names| < MaxNumberOfDocs
    ensures ParseLine(g, line).names == FirstSeen(g.names, [Title(line)] + Targets(line))
    ensures Edges(ParseLine(g, line)) == Edges(g) + set t | t in Targets(line) :: (Title(line), t)
  {
    var (h, from) := Visit(g, Title(line));
    VisitKeeps(g, Title(line));
    VisitEdges(g, Title(line));
    AddTargetsComplete(h, from, Targets(line));
    FirstSeenAppend(g.names, [Title(line)], Targets(line));
    assert FirstSeen(g.names, [Title(line)]) == h.names by {
      assert [Title(line)][1..] == [];
    }
  }

  /**
   * readDocs when the table never fills up (fewer than MaxNumberOfDocs
   * documents in the end): the IDs 0, 1, 2, ... go to the titles in the
   * order they are first met, as a source or as a target, and the edges are
   * exactly the listed (source, target) pairs, each recorded once.
   */
  lemma {:induction false} ParseLinesComplete(g: Graph, lines: seq<string>)
    requires WellFormed(g) && AllHaveSemicolon(lines)
    requires |ParseLines(g, lines).names| < MaxNumberOfDocs
    ensures ParseLines(g, lines).names == FirstSeen(g.names, AllTitles(lines))
    ensures Edges(ParseLines(g, lines)) == Edges(g) + ListedLinks(lines)
    decreases |lines|
  {
    if lines != [] {
      var h := ParseLine(g, lines[0]);
      ParseLineKeeps(g, lines[0]);
      ParseLinesKeeps(h, lines[1..]);
      ParseLineComplete(g, lines[0]);
      ParseLinesComplete(h, lines[1..]);
      FirstSeenAppend(g.names, [Title(lines[0])] + Targets(lines[0]), AllTitles(lines[1..]));
    }
  }

  /** What the whole file gives: the tables are inverse, and a link from
      ID i to ID j is recorded exactly when some line of title names[i]
      lists names[j], provided the table did not fill up. */
  lemma ReadDocsGraph(lines: seq<string>, i: int, j: int)
    requires AllHaveSemicolon(lines)
    requires |ParseLines(Initial, lines).names| < MaxNumberOfDocs
    ensures var g := ParseLines(Initial, lines);
      && WellFormed(g)
      && g.names == FirstSeen([], AllTitles(lines))
      && (i in g.link && j in g.link[i] <==>
            0 <= i < |g.names| && 0 <= j < |g.names| && (g.names[i], g.names[j]) in ListedLinks(lines))
  {
    var g := ParseLines(Initial, lines);
    ParseLinesKeeps(Initial, lines);
    ParseLinesComplete(Initial, lines);
    assert Edges(Initial) == {};
    if 0 <= i < |g.names| && 0 <= j < |g.names| && (g.names[i], g.names[j]) in Edges(g) {
      var x, y :| x in g.link && y in g.link[x] && 0 <= x < |g.names| && 0 <= y < |g.names|
        && (g.names[i], g.names[j]) == (g.names[x], g.names[y]);
      assert g.ids[g.names[x]] == x && g.ids[g.names[i]] == i;
      assert g.ids[g.names[y]] == y && g.ids[g.names[j]] == j;
    }
  }
}
