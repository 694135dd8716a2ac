/**
 * The random draws of the surfer. java.util.Random is replaced by two
 * given outcome streams: whether the k-th nextDouble() is at most BORED,
 * and the raw value behind the k-th nextInt(bound).
 */
module Draws {

  class Random {
    /** bored(k): the k-th nextDouble() is at most BORED. */
    const bored: nat -> bool
    /** The k-th nextInt(bound) yields picks(k) % bound. */
    const picks: nat -> nat
    /** A draw at or after k that is at most BORED. */
    ghost const boredAt: nat -> nat
    /** The number of nextDouble() and nextInt(...) calls made so far. */
    var doubles: nat
    var ints: nat

    /** Every stretch of draws ends in a bored one: the stream that walks
        terminate on, which a fair coin produces with probability 1. */
    ghost predicate Valid()
    {
      forall k: nat :: k <= boredAt(k) && bored(boredAt(k))
    }

    constructor (bored: nat -> bool, picks: nat -> nat, ghost boredAt: nat -> nat)
      requires forall k: nat :: k <= boredAt(k) && bored(boredAt(k))
      ensures Valid() && this.bored == bored && this.picks == picks
      ensures doubles == 0 && ints == 0
    {
      this.bored := bored;
      this.picks := picks;
      this.boredAt := boredAt;
      doubles := 0;
      ints := 0;
    }

    /** nextDouble() <= BORED. */
    method NextIsBored() returns (b: bool)
      modifies this
      ensures b == bored(old(doubles))
      ensures doubles == old(doubles) + 1 && ints == old(ints)
    {
      b := bored(doubles);
      doubles := doubles + 1;
    }

    /** nextInt(bound), which Java refuses for a bound that is not positive. */
    method NextInt(bound: int) returns (r: int)
      requires bound > 0
      modifies this
      ensures 0 <= r < bound && r == picks(old(ints)) % bound
      ensures ints == old(ints) + 1 && doubles == old(doubles)
    {
      r := picks(ints) % bound;
      ints := ints + 1;
    }
  }
}

/**
 * The link graph and the Monte-Carlo estimators of PageRank: the tables
 * readDocs fills, and the visit counts the five walk methods accumulate
 * before they normalise them.
 */
module PageRanking {
  import opened LinkGraph
  import opened Draws

  /** The sum of a count table. */
  function Sum(s: seq<int>): int
  {
    if s == [] then 0 else s[0] + Sum(s[1..])
  }

  /** Raising one count raises the sum by the same amount. */
  lemma {:induction false} SumUpdate(s: seq<int>, i: int, v: int)
    requires 0 <= i < |s|
    ensures Sum(s[i := v]) == Sum(s) - s[i] + v
  {
    if i > 0 {
      SumUpdate(s[1..], i - 1, v);
      assert s[i := v][1..] == s[1..][i - 1 := v];
    }
  }

  /** A table of zeros sums to zero. */
  lemma {:induction false} SumZeros(s: seq<int>)
    requires forall k :: 0 <= k < |s| ==> s[k] == 0
    ensures Sum(s) == 0
  {
    if s != [] {
      SumZeros(s[1..]);
    }
  }

  /** The visits of completeWalk started at step t with horizon T when no
      walk stops early: one per step t, t + 1, ..., T, and always the first. */
  function Horizon(t: int, T: int): nat
  {
    if t >= T then 1 else T - t + 1
  }

  function NonNegative(x: int): nat
  {
    if x > 0 then x else 0
  }

  class PageRank {
    const random: Random
    /** Title -> document number. */
    var docNumber: map<string, nat>
    /** Document number -> title: the filled part of the docName table. */
    var docName: seq<string>
    /** Document number -> the numbers it links to; no key for a sink. */
    var link: map<nat, set<nat>>
    /** The number of distinct outlinks of each document. */
    const out: array<int>
    var numberOfSinks: int

    /** The tables have their fixed capacity and the draws are usable. */
    ghost predicate Shaped()
      reads this
    {
      out.Length == MaxNumberOfDocs && random.Valid()
    }

    /** out[i] counts the successors link records for i. */
    ghost predicate OutCounts()
      reads this, out
    {
      forall i :: 0 <= i < out.Length ==> out[i] == OutOf(link, i)
    }

    /** The tables as a graph value: the numbered titles, their numbers and
        the links. */
    ghost function View(): Graph
      reads this
    {
      Graph(docNumber, docName, link)
    }

    /** The tables hold fileIndex documents, every number handed out is
        below fileIndex, and out holds the outlink counts of link. */
    ghost predicate Loaded(fileIndex: int)
      reads this, out, random
    {
      && Shaped() && fileIndex == |docName| <= MaxNumberOfDocs && OutCounts()
      && (forall t :: t in docNumber ==> docNumber[t] < fileIndex)
    }

    /** Empty tables hold the empty graph. */
    lemma EmptyLoaded()
      requires Shaped() && docNumber == map[] && docName == [] && link == map[] && OutCounts()
      ensures View() == Initial && Loaded(0)
    {
    }

    /** A graph on the nodes [0, n) that the walks can run on; it may be empty. */
    ghost predicate GraphOver(n: int)
      reads this, out
    {
      && Shaped() && 0 <= n <= MaxNumberOfDocs && OutCounts()
      && (forall i :: i in link ==> 0 <= i < n && link[i] != {})
      && (forall i, j :: i in link && j in link[i] ==> 0 <= j < n)
    }

    /** The field initialisers: empty tables, out all zero. */
    constructor (random: Random)
      requires random.Valid()
      ensures this.random == random && Shaped()
      ensures docNumber == map[] && docName == [] && link == map[] && numberOfSinks == 0 && OutCounts()
      ensures fresh(out)
    {
      this.random := random;
      docNumber := map[];
      docName := [];
      link := map[];
      out := new int[MaxNumberOfDocs](_ => 0);
      numberOfSinks := 0;
    }

    /** The lookup-or-number step readDocs takes for a source and for a target. */
    method Number(title: string, fileIndex: nat) returns (id: nat, next: nat)
      requires Loaded(fileIndex) && fileIndex < MaxNumberOfDocs
      modifies this`docNumber, this`docName
      ensures fileIndex <= next && Loaded(next)
      ensures (View(), id) == Visit(old(View()), title)
    {
      next := fileIndex;
      if title in docNumber {
        id := docNumber[title];
      } else {
        // An unseen title takes the next free number.
        id := next;
        next := next + 1;
        docNumber := docNumber[title := id];
        docName := docName + [title];
      }
    }

    /** Records the edge from -> to once, counting it in out[from]. */
    method Link(from: nat, to: nat)
      requires Shaped() && OutCounts() && from < MaxNumberOfDocs
      modifies this`link, out
      ensures OutCounts()
      ensures View() == AddLink(old(View()), from, to)
    {
      if from !in link {
        link := link[from := {}];
      }
      if to !in link[from] {
        link := link[from := link[from] + {to}];
        out[from] := out[from] + 1;
      } else {
        assert from in old(link) && link == old(link);
        assert old(link)[from] + {to} == old(link)[from];
      }
    }

    /** One pass of the inner loop of readDocs: the target's number, then
        the edge from fromdoc to it. */
    method AddOutlink(fromdoc: nat, otherTitle: string, fileIndex: nat) returns (next: nat)
      requires Loaded(fileIndex) && 0 <= fromdoc < fileIndex < MaxNumberOfDocs
      modifies this`docNumber, this`docName, this`link, out
      ensures fileIndex <= next && Loaded(next)
      ensures View() == LinkTo(old(View()), fromdoc, otherTitle)
    {
      var otherDoc;
      otherDoc, next := Number(otherTitle, fileIndex);
      Link(fromdoc, otherDoc);
    }

    /** AddOutlink on the m-th target, as one step of AddTargets. */
    method AddOutlinkAt(fromdoc: nat, targets: seq<string>, m: nat, fileIndex: nat, ghost goal: Graph) returns (next: nat)
      requires Loaded(fileIndex) && 0 <= fromdoc < fileIndex < MaxNumberOfDocs && m < |targets|
      requires AddTargets(View(), fromdoc, targets[m..]) == goal
      modifies this`docNumber, this`docName, this`link, out
      ensures fileIndex <= next && Loaded(next)
      ensures AddTargets(View(), fromdoc, targets[m + 1..]) == goal
    {
      AddTargetsUnfold(View(), fromdoc, targets, m);
      next := AddOutlink(fromdoc, targets[m], fileIndex);
    }

    /**
     * The inner loop of readDocs for one line: numbers each target and
     * records the edge from fromdoc to it, while the table has room.
     */
    method AddOutlinks(fromdoc: nat, targets: seq<string>, fileIndex: nat) returns (next: nat)
      requires Loaded(fileIndex) && 0 <= fromdoc < fileIndex
      modifies this`docNumber, this`docName, this`link, out
      ensures fileIndex <= next && Loaded(next)
      ensures View() == AddTargets(old(View()), fromdoc, targets)
    {
      next := fileIndex;
      ghost var start := View();
      ghost var goal := AddTargets(start, fromdoc, targets);
      var m := 0;
      while m < |targets| && next < MaxNumberOfDocs
        invariant 0 <= m <= |targets| && fileIndex <= next && Loaded(next)
        invariant AddTargets(View(), fromdoc, targets[m..]) == goal
      {
        next := AddOutlinkAt(fromdoc, targets, m, next, goal);
        m := m + 1;
      }
      AddTargetsDone(View(), fromdoc, targets, m);
      assert View() == goal;
      assert old(View()) == start;
    }

    /** The last loop of readDocs: the documents with no outlinks. */
    method CountSinks(fileIndex: nat)
      requires fileIndex <= out.Length
      modifies this`numberOfSinks
      ensures numberOfSinks == old(numberOfSinks) + |ZerosBelow(out[..], fileIndex)|
    {
      var i := 0;
      while i < fileIndex
        invariant 0 <= i <= fileIndex
        invariant numberOfSinks == old(numberOfSinks) + |ZerosBelow(out[..], i)|
      {
        ghost var below := ZerosBelow(out[..], i);
        ghost var upTo := ZerosBelow(out[..], i + 1);
        if out[i] == 0 {
          assert upTo == below + {i} && i !in below;
          numberOfSinks := numberOfSinks + 1;
        } else {
          assert upTo == below;
        }
        i := i + 1;
      }
    }

    /**
     * One pass of the outer loop of readDocs: the title before the first
     * semicolon is numbered, then each comma-separated target after it.
     */
    method ReadLine(line: string, fileIndex: nat) returns (next: nat)
      requires Loaded(fileIndex) && fileIndex < MaxNumberOfDocs && ';' in line
      modifies this`docNumber, this`docName, this`link, out
      ensures fileIndex <= next && Loaded(next)
      ensures View() == ParseLine(old(View()), line)
    {
      ghost var g := View();
      var index := SemicolonIndex(line);
      var title := line[..index];
      var fromdoc;
      fromdoc, next := Number(title, fileIndex);
      // The comma-separated targets after the semicolon.
      var targets := Tokenizer.Tokens(line[index + 1..], TargetDelimiters);
      next := AddOutlinks(fromdoc, targets, next);
      ParseLineSteps(g, line);
    }

    /** ReadLine on the k-th line, as one step of ParseLines. */
    method ReadLineAt(lines: seq<string>, k: nat, fileIndex: nat, ghost goal: Graph) returns (next: nat)
      requires Loaded(fileIndex) && fileIndex < MaxNumberOfDocs
      requires k < |lines| && AllHaveSemicolon(lines[k..])
      requires ParseLines(View(), lines[k..]) == goal
      modifies this`docNumber, this`docName, this`link, out
      ensures fileIndex <= next && Loaded(next) && AllHaveSemicolon(lines[k + 1..])
      ensures ParseLines(View(), lines[k + 1..]) == goal
    {
      assert lines[k..][0] == lines[k] && lines[k..][1..] == lines[k + 1..];
      next := ReadLine(lines[k], fileIndex);
    }

    /**
     * The outer loop of readDocs(filename), on the lines of the file: it
     * reads a line while the table has room, numbers its title and each
     * target, and records each distinct edge once. A line without a
     * semicolon makes substring(0, -1) throw an exception that is not
     * caught, so every line must have one.
     */
    method ReadLines(lines: seq<string>) returns (fileIndex: nat)
      requires Shaped() && docNumber == map[] && docName == [] && link == map[] && OutCounts()
      requires AllHaveSemicolon(lines)
      modifies this`docNumber, this`docName, this`link, out
      ensures Loaded(fileIndex) && View() == ParseLines(Initial, lines)
    {
      fileIndex := 0;
      ghost var goal := ParseLines(Initial, lines);
      EmptyLoaded();
      var k := 0;
      while k < |lines| && fileIndex < MaxNumberOfDocs
        invariant 0 <= k <= |lines| && Loaded(fileIndex)
        invariant AllHaveSemicolon(lines[k..])
        invariant ParseLines(View(), lines[k..]) == goal
      {
        fileIndex := ReadLineAt(lines, k, fileIndex, goal);
        k := k + 1;
      }
      ParseLinesDone(View(), lines, k);
      assert View() == goal;
    }

    /**
     * readDocs(filename): the lines are read into the tables, then the
     * documents with no outlinks are counted.
     */
    method ReadDocs(lines: seq<string>) returns (fileIndex: nat)
      requires Shaped() && docNumber == map[] && docName == [] && link == map[] && OutCounts()
      requires AllHaveSemicolon(lines)
      modifies this`docNumber, this`link, this`numberOfSinks, this`docName, out
      ensures Loaded(fileIndex) && View() == ParseLines(Initial, lines) && WellFormed(View())
      ensures numberOfSinks == old(numberOfSinks) + |Sinks(link, fileIndex)|
      ensures GraphOver(fileIndex)
    {
      fileIndex := ReadLines(lines);
      ParseLinesKeeps(Initial, lines);
      // out holds the outlink counts, so its zeros below fileIndex are the sinks.
      CountSinks(fileIndex);
      ZerosAreSinks(out[..], link, fileIndex);
    }

    /** getP(i, j): 1 when i links to j, else 0. */
    function GetP(i: int, j: int): (r: int)
      reads this
      ensures r == 0 || r == 1
      ensures r == 1 <==> i in link && j in link[i]
    {
      // No successor table for i.
      if i !in link then 0
      // j is not among the successors of i.
      else if j !in link[i] then 0
      else 1
    }

    /** randomPage(n). */
    method RandomPage(n: int) returns (r: int)
      requires n > 0
      modifies random
      ensures 0 <= r < n
      ensures random.doubles == old(random.doubles)
    {
      r := random.NextInt(n);
    }

    /**
     * randomPageFrom(from): the x-th key of link[from] in the table's
     * iteration order, which is not specified (each key is taken in turn by
     * an arbitrary choice). Since x < out[from] == |link[from]|, a key is
     * always found and the -1 return is never reached.
     */
    method RandomPageFrom(from: int) returns (to: int)
      requires Shaped() && OutCounts() && 0 <= from < out.Length && out[from] > 0
      modifies random
      ensures from in link && to in link[from]
      ensures random.doubles == old(random.doubles)
    {
      var x := random.NextInt(out[from]);
      var i := 0;
      var keys := link[from];
      while keys != {}
        invariant keys <= link[from]
        invariant i + |keys| == |link[from]| && i <= x
        invariant random.doubles == old(random.doubles)
        decreases keys
      {
        var key :| key in keys;
        if i == x {
          return key;
        }
        i := i + 1;
        keys := keys - {key};
      }
      // Unreachable: x < |link[from]| and every key has been taken.
      assert false;
      to := -1;
    }

    /**
     * walk(page, n): follows links until a draw says bored, and ends where
     * it is then; a sink ends the walk on a random page. The tail recursion
     * is written as a loop; it ends on the first bored draw at the latest.
     */
    method Walk(page: int, n: int) returns (r: int)
      requires GraphOver(n) && 0 <= page < n
      modifies random
      ensures 0 <= r < n
    {
      var p := page;
      ghost var stop := random.boredAt(random.doubles);
      while true
        invariant 0 <= p < n && random.doubles <= stop && random.bored(stop)
        decreases stop - random.doubles
      {
        var x := random.NextIsBored();
        // A bored draw ends the walk where it is.
        if x {
          return p;
        }
        // A sink ends the walk on a random page.
        if out[p] == 0 {
          r := RandomPage(n);
          return;
        }
        p := RandomPageFrom(p);
      }
    }

    /**
     * completeWalk(page, n, pagerank, t, T, dangling): counts a visit of
     * page at step t, then moves on until step T. A walk that is not
     * dangling-aware records one visit per step t..T; a dangling-aware one
     * stops at a sink, recording at least the first visit and never more.
     */
    method CompleteWalk(page: int, n: int, pagerank: array<int>, t: int, T: int, dangling: bool)
      requires GraphOver(n) && pagerank.Length == n && pagerank != out && 0 <= page < n
      modifies pagerank, random
      ensures var added := Sum(pagerank[..]) - old(Sum(pagerank[..]));
        && (!dangling ==> added == Horizon(t, T))
        && (dangling ==> 1 <= added <= Horizon(t, T))
      ensures forall i :: 0 <= i < n ==> old(pagerank[i]) <= pagerank[i]
      decreases T - t
    {
      SumUpdate(pagerank[..], page, pagerank[page] + 1);
      pagerank[page] := pagerank[page] + 1;
      if t >= T {
        return;
      }
      var x := random.NextIsBored();
      var next;
      if x {
        next := RandomPage(n);
      } else if out[page] == 0 {
        if dangling {
          return;
        }
        next := RandomPage(n);
      } else {
        next := RandomPageFrom(page);
      }
      CompleteWalk(next, n, pagerank, t + 1, T, dangling);
    }

    /** Method 1 before normalising: N walks from random pages, each adding
        one count at its end point. */
    method EndpointRandomStart(n: int, N: int) returns (pagerank: array<int>)
      requires GraphOver(n) && (0 < n || N <= 0)
      modifies random
      ensures fresh(pagerank) && pagerank.Length == n
      ensures Sum(pagerank[..]) == NonNegative(N)
    {
      pagerank := new int[n](_ => 0);
      SumZeros(pagerank[..]);
      var i := 0;
      while i < N
        invariant 0 <= i && (i == 0 || i <= N)
        invariant Sum(pagerank[..]) == i
      {
        var start := RandomPage(n);
        var end := Walk(start, n);
        SumUpdate(pagerank[..], end, pagerank[end] + 1);
        pagerank[end] := pagerank[end] + 1;
        i := i + 1;
      }
    }

    /** Method 2 before normalising: m walks from every page, one count at
        each end point, n * m in all. */
    method EndpointCyclicStart(n: int, m: int) returns (pagerank: array<int>)
      requires GraphOver(n)
      modifies random
      ensures fresh(pagerank) && pagerank.Length == n
      ensures Sum(pagerank[..]) == n * NonNegative(m)
    {
      pagerank := new int[n](_ => 0);
      SumZeros(pagerank[..]);
      ghost var M := NonNegative(m);
      for i := 0 to n
        invariant Sum(pagerank[..]) == i * M
      {
        EndpointsFrom(i, n, m, pagerank);
        MulSucc(i, M);
      }
    }

    /** The inner loop of method 2: m walks from page, each adding one visit. */
    method EndpointsFrom(page: int, n: int, m: int, pagerank: array<int>)
      requires GraphOver(n) && pagerank.Length == n && pagerank != out && 0 <= page < n
      modifies pagerank, random
      ensures Sum(pagerank[..]) == old(Sum(pagerank[..])) + NonNegative(m)
    {
      var j := 0;
      while j < m
        invariant 0 <= j && (j == 0 || j <= m)
        invariant Sum(pagerank[..]) == old(Sum(pagerank[..])) + j
      {
        var end := Walk(page, n);
        SumUpdate(pagerank[..], end, pagerank[end] + 1);
        pagerank[end] := pagerank[end] + 1;
        j := j + 1;
      }
    }

    /**
     * The inner loop of methods 3 and 4: m complete walks of at most T steps
     * from page. Without the dangling test each adds exactly T visits
     * (Horizon(1, T)); with it each adds between one and that many.
     */
    method WalksFrom(page: int, n: int, m: int, pagerank: array<int>, T: int, dangling: bool)
      requires GraphOver(n) && pagerank.Length == n && pagerank != out && 0 <= page < n
      modifies pagerank, random
      ensures var added := Sum(pagerank[..]) - old(Sum(pagerank[..]));
        && (!dangling ==> added == NonNegative(m) * Horizon(1, T))
        && (dangling ==> NonNegative(m) <= added <= NonNegative(m) * Horizon(1, T))
    {
      ghost var start := Sum(pagerank[..]);
      ghost var H := Horizon(1, T);
      ghost var most := 0;
      var j := 0;
      while j < m
        invariant 0 <= j && (j == 0 || j <= m)
        invariant most == j * H
        invariant !dangling ==> Sum(pagerank[..]) == start + most
        invariant dangling ==> start + j <= Sum(pagerank[..]) <= start + most
      {
        CompleteWalk(page, n, pagerank, 1, T, dangling);
        MulSucc(j, H);
        most := most + H;
        j := j + 1;
      }
      assert j == NonNegative(m);
    }

    /** Method 3 before normalising: m complete walks of T steps from every
        page, n * m * T visits in all (the divisor N * T of the source). */
    method CompletePath(n: int, m: int, T: int) returns (pagerank: array<int>)
      requires GraphOver(n)
      modifies random
      ensures fresh(pagerank) && pagerank.Length == n
      ensures Sum(pagerank[..]) == n * NonNegative(m) * Horizon(1, T)
    {
      pagerank := new int[n](_ => 0);
      SumZeros(pagerank[..]);
      ghost var MH := NonNegative(m) * Horizon(1, T);
      for i := 0 to n
        invariant Sum(pagerank[..]) == i * MH
      {
        WalksFrom(i, n, m, pagerank, T, false);
        MulSucc(i, MH);
      }
    }

    /** The numberOfVisits loop of methods 4 and 5. */
    method TotalVisits(pagerank: array<int>) returns (numberOfVisits: int)
      ensures numberOfVisits == Sum(pagerank[..])
    {
      numberOfVisits := 0;
      for i := 0 to pagerank.Length
        invariant numberOfVisits == Sum(pagerank[..i])
      {
        SumSplit(pagerank[..], i);
        assert pagerank[..][..i] == pagerank[..i] && pagerank[..][..i + 1] == pagerank[..i + 1];
        numberOfVisits := numberOfVisits + pagerank[i];
      }
      assert pagerank[..pagerank.Length] == pagerank[..];
    }

    /** Method 4 before normalising: m dangling-aware walks of at most T
        steps from every page. Every walk records at least one visit, so the
        total the counts are divided by is at least n * m. */
    method CompletePathDangling(n: int, m: int, T: int) returns (pagerank: array<int>, numberOfVisits: int)
      requires GraphOver(n)
      modifies random
      ensures fresh(pagerank) && pagerank.Length == n
      ensures numberOfVisits == Sum(pagerank[..])
      ensures n * NonNegative(m) <= numberOfVisits <= n * NonNegative(m) * Horizon(1, T)
    {
      pagerank := new int[n](_ => 0);
      SumZeros(pagerank[..]);
      ghost var M := NonNegative(m);
      ghost var MH := M * Horizon(1, T);
      for i := 0 to n
        invariant i * M <= Sum(pagerank[..]) <= i * MH
      {
        WalksFrom(i, n, m, pagerank, T, true);
        MulSucc(i, M);
        MulSucc(i, MH);
      }
      numberOfVisits := TotalVisits(pagerank);
    }

    /** Method 5 before normalising: N dangling-aware walks of at most T
        steps from random pages; between N and N * T visits. */
    method CompletePathRandomStart(n: int, N: int, T: int) returns (pagerank: array<int>, numberOfVisits: int)
      requires GraphOver(n) && (0 < n || N <= 0)
      modifies random
      ensures fresh(pagerank) && pagerank.Length == n
      ensures numberOfVisits == Sum(pagerank[..])
      ensures NonNegative(N) <= numberOfVisits <= NonNegative(N) * Horizon(1, T)
    {
      pagerank := new int[n](_ => 0);
      SumZeros(pagerank[..]);
      ghost var H := Horizon(1, T);
      ghost var most := 0;
      var i := 0;
      while i < N
        invariant 0 <= i && (i == 0 || i <= N)
        invariant most == i * H
        invariant i <= Sum(pagerank[..]) <= most
      {
        var start := RandomPage(n);
        CompleteWalk(start, n, pagerank, 1, T, true);
        MulSucc(i, H);
        most := most + H;
        i := i + 1;
      }
      numberOfVisits := TotalVisits(pagerank);
    }
  }

  lemma MulSucc(a: int, b: int)
    ensures (a + 1) * b == a * b + b
  {
  }

  /** The documents among the first n whose count is zero. */
  function ZerosBelow(counts: seq<int>, n: int): set<int>
  {
    set j | 0 <= j < n && j < |counts| && counts[j] == 0
  }

  /** The documents among the first n that link nowhere. */
  function Sinks(link: map<nat, set<nat>>, n: int): set<int>
  {
    set j | 0 <= j < n && OutOf(link, j) == 0
  }

  /** Where the table holds the outlink counts, its zeros are the sinks. */
  lemma ZerosAreSinks(counts: seq<int>, link: map<nat, set<nat>>, n: int)
    requires n <= |counts|
    requires forall i :: 0 <= i < |counts| ==> counts[i] == OutOf(link, i)
    ensures ZerosBelow(counts, n) == Sinks(link, n)
  {
  }

  /** The sum of a table is the sum of a prefix plus the rest. */
  lemma {:induction false} SumSplit(s: seq<int>, i: int)
    requires 0 <= i < |s|
    ensures Sum(s[..i + 1]) == Sum(s[..i]) + s[i]
  {
    if i > 0 {
      SumSplit(s[1..], i - 1);
      assert s[1..][..i] == s[..i + 1][1..];
      assert s[1..][..i - 1] == s[..i][1..];
    }
  }
}
