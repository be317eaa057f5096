/** Block-Max WAND over compressed posting lists (index/search/wand.go). */
module Wand {
  import opened Bits
  import opened Heaps
  import opened Options
  import opened Postings
  import opened Ranking
  import opened Sums
  import opened Sorting
  import opened TopHeap
  import opened WandLast
  import opened WandSpec
  import opened WandState

  method LiveSorted(states: seq<TermState>) returns (live: seq<TermState>, ghost order: seq<nat>)
    ensures Collected(states, live, order)
  {
    live, order := [], [];
    for n := 0 to |states|
      invariant Collected(states[..n], live, order)
    {
      live, order := InsertState(states, n, live, order);
    }
    assert states[..|states|] == states;
  }

  /** Puts a state in its place unless it is done. */
  method InsertState(states: seq<TermState>, n: nat, live: seq<TermState>, ghost order: seq<nat>)
    returns (live': seq<TermState>, ghost order': seq<nat>)
    requires n < |states| && Collected(states[..n], live, order)
    ensures Collected(states[..n + 1], live', order')
  {
    live', order' := live, order;
    if states[n].done {
      SkipKeepsOrder(states, n, live, order);
    } else {
      var p := InsertionPoint(live, states[n].doc);
      InsertKeepsOrder(states, n, live, order, p);
      live', order' := Inserted(live, p, states[n]), Inserted(order, p, n);
    }
  }

  /** After every document at or below d, so equal documents keep their order. */
  method InsertionPoint(live: seq<TermState>, d: uint32) returns (p: nat)
    ensures p <= |live| && (p > 0 ==> live[p - 1].doc <= d)
    ensures forall j :: p <= j < |live| ==> live[j].doc > d
  {
    p := |live|;
    while p > 0 && live[p - 1].doc > d
      invariant p <= |live|
      invariant forall j :: p <= j < |live| ==> live[j].doc > d
    {
      p := p - 1;
    }
  }

  // ----- the pivot

  method FindPivot(live: seq<TermState>, threshold: real, ghost order: seq<nat>, ghost terms: seq<Term>)
    returns (p: int)
    requires Bounded(live, order, terms) && threshold >= 0.0
    ensures -1 <= p < |live|
    ensures p < 0 ==> SumOver(Bounds(terms), order) <= threshold
    ensures p >= 0 ==> SumOver(Bounds(terms), order[..p]) <= threshold < SumOver(Bounds(terms), order[..p + 1])
  {
    var sum := 0.0;
    for i := 0 to |live|
      invariant sum == SumOver(Bounds(terms), order[..i]) <= threshold
    {
      assert order[..i + 1][..i] == order[..i];
      sum := sum + live[i].maxScore;
      if sum > threshold {
        return i;
      }
    }
    assert order[..|live|] == order;
    return -1;
  }

  method PickAdvance(live: seq<TermState>, pivotDoc: uint32) returns (best: int)
    requires exists j :: 0 <= j < |live| && live[j].doc < pivotDoc
    requires forall j :: 0 <= j < |live| ==> live[j].maxScore >= 0.0
    ensures 0 <= best < |live| && live[best].doc < pivotDoc
    ensures forall j :: 0 <= j < |live| && live[j].doc < pivotDoc ==> live[j].maxScore <= live[best].maxScore
  {
    best := -1;
    var bestScore := -1.0;
    for i := 0 to |live|
      invariant best == -1 ==> bestScore == -1.0 && forall j :: 0 <= j < i ==> live[j].doc >= pivotDoc
      invariant best != -1 ==> 0 <= best < i && live[best].doc < pivotDoc && bestScore == live[best].maxScore
      invariant forall j :: 0 <= j < i && live[j].doc < pivotDoc ==> live[j].maxScore <= bestScore
    {
      if live[i].doc < pivotDoc && live[i].maxScore > bestScore {
        best, bestScore := i, live[i].maxScore;
      }
    }
  }

  method ScoreDoc(live: seq<TermState>, doc: uint32, ghost states: seq<TermState>,
                  ghost terms: seq<Term>, ghost pos: seq<nat>, ghost frontier: nat, ghost order: seq<nat>)
    returns (s: real)
    requires TermsOk(terms) && At(states, terms, pos, frontier)
    requires Selects(states, live, order) && Live(terms, pos, order)
    ensures s == SumOver(Masked(Contributions(terms, doc), Sitting(terms, pos, doc)), order)
    ensures At(states, terms, pos, frontier)
  {
    ghost var ys := Masked(Contributions(terms, doc), Sitting(terms, pos, doc));
    s := 0.0;
    for j := 0 to |live|
      invariant s == SumOver(ys, order[..j]) && At(states, terms, pos, frontier)
    {
      assert order[..j + 1][..j] == order[..j];
      LiveFacts(states, terms, pos, frontier, live, order, j);
      SittingScore(terms, pos, order[j], doc);
      if live[j].doc == doc {
        s := s + live[j].scorer.score(live[j].cur.Freq());
      }
    }
    assert order[..|live|] == order;
  }

  // ----- block bounds

  /** Points one term's shallow block at pivotDoc; every other term is untouched. */
  method ShallowTo(ts: TermState, pivotDoc: uint32, ghost states: seq<TermState>, ghost i: nat,
                   ghost terms: seq<Term>, ghost pos: seq<nat>)
    requires i < |states| && ts == states[i] && Separate(states) && At(states, terms, pos, pivotDoc)
    requires pos[i] < |terms[i].ps| && terms[i].ps[pos[i]].doc == pivotDoc
    modifies ts.cur`shallowIdx
    ensures At(states, terms, pos, pivotDoc) && OnBlock(ts.cur.l, ts.cur.shallowIdx, pivotDoc)
  {
    assert StateAt(states[i], terms[i], pos[i], pivotDoc);
    ts.cur.AdvanceShallow(pivotDoc);
    assert StateAt(states[i], terms[i], pos[i], pivotDoc);
    ShallowLands(states[i], terms[i], pos[i], pivotDoc, pivotDoc);
    forall m | 0 <= m < |states| && m != i ensures StateAt(states[m], terms[m], pos[m], pivotDoc) {
      assert states[m].Footprint() !! states[i].Footprint();
    }
  }

  /** The sum of the block bounds of the terms at or below pivotDoc, which are the first n of order. */
  method BlockMaxSum(live: seq<TermState>, pivotDoc: uint32, ghost states: seq<TermState>,
                     ghost terms: seq<Term>, ghost pos: seq<nat>, ghost order: seq<nat>, ghost n: nat)
    returns (sum: real, ghost idx: seq<nat>)
    requires Separate(states) && At(states, terms, pos, pivotDoc)
    requires Selects(states, live, order) && Live(terms, pos, order) && Distinct(order)
    requires SplitsAt(terms, pos, order, pivotDoc, n)
    requires forall j :: 0 <= j < |order| ==> CurDoc(terms, pos, order, j) >= pivotDoc
    modifies Cursors(live)`shallowIdx
    ensures At(states, terms, pos, pivotDoc)
    ensures |idx| == n && OnBlocks(live, idx, pivotDoc) && sum == Sum(LiveBounds(live, idx, pivotDoc))
  {
    sum, idx := 0.0, [];
    for j := 0 to |live|
      invariant |idx| == j <= n && At(states, terms, pos, pivotDoc)
      invariant OnBlocks(live, idx, pivotDoc) && sum == Sum(LiveBounds(live, idx, pivotDoc))
    {
      LiveFacts(states, terms, pos, pivotDoc, live, order, j);
      if live[j].doc > pivotDoc {
        break;
      }
      var bound, b := BlockMaxOf(live, j, pivotDoc, states, terms, pos, order);
      sum := sum + bound;
      LiveBoundsSnoc(live, idx, b, pivotDoc);
      idx := idx + [b];
    }
  }

  method BlockMaxOf(live: seq<TermState>, j: nat, pivotDoc: uint32, ghost states: seq<TermState>,
                    ghost terms: seq<Term>, ghost pos: seq<nat>, ghost order: seq<nat>)
    returns (bound: real, ghost b: nat)
    requires Separate(states) && At(states, terms, pos, pivotDoc)
    requires Selects(states, live, order) && Live(terms, pos, order) && Distinct(order)
    requires j < |order| && CurDoc(terms, pos, order, j) == pivotDoc
    modifies live[j].cur`shallowIdx
    ensures At(states, terms, pos, pivotDoc)
    ensures OnBlock(live[j].cur.l, b, pivotDoc) && bound == BlockBound(live[j], b)
  {
    ShallowTo(live[j], pivotDoc, states, order[j], terms, pos);
    b := live[j].cur.shallowIdx;
    bound := live[j].scorer.maxScore(live[j].cur.BlockMaxFreq());
  }

  /** Where a block skip may jump: past the first block end among the first n terms, but not past
      the document of the next term. */
  method SkipTarget(live: seq<TermState>, pivotDoc: uint32, ghost states: seq<TermState>,
                    ghost terms: seq<Term>, ghost pos: seq<nat>, ghost order: seq<nat>, ghost n: nat, ghost idx: seq<nat>)
    returns (target: uint32)
    requires TermsOk(terms) && Separate(states) && At(states, terms, pos, pivotDoc)
    requires Selects(states, live, order) && Live(terms, pos, order)
    requires SplitsAt(terms, pos, order, pivotDoc, n) && 0 < n == |idx| && OnBlocks(live, idx, pivotDoc)
    requires forall j :: 0 <= j < |order| ==> CurDoc(terms, pos, order, j) >= pivotDoc
    modifies Cursors(live)`shallowIdx
    ensures At(states, terms, pos, pivotDoc) && (pivotDoc < target || target == 0)
    ensures forall j :: 0 <= j < n ==> target <= live[j].cur.l.blocks[idx[j]].lastDoc + 1
    ensures n < |order| ==> target <= CurDoc(terms, pos, order, n)
    ensures target == 0 ==> live[0].cur.l.blocks[idx[0]].lastDoc == MAX_DOC
  {
    var minLast: uint32, first := 0, true;
    var nextTermDoc: uint32, haveNext := 0, false;
    for j := 0 to |live|
      invariant j <= n && At(states, terms, pos, pivotDoc) && !haveNext && (first <==> j == 0)
      invariant EndsAfter(live, idx, j, pivotDoc, minLast)
    {
      LiveFacts(states, terms, pos, pivotDoc, live, order, j);
      if live[j].doc > pivotDoc {
        nextTermDoc, haveNext := live[j].doc, true;
        break;
      }
      var last := BlockLastOf(live, j, pivotDoc, states, terms, pos, order, idx);
      EndsAfterStep(live, idx, j, pivotDoc, minLast, last);
      if first || last < minLast {
        minLast, first := last, false;
      }
    }
    target := Inc32(minLast);
    assert target == if minLast < MAX_DOC then minLast + 1 else 0;
    if haveNext && nextTermDoc < target {
      target := nextTermDoc;
    }
  }

  /** The end of the one block that holds pivotDoc. */
  method BlockLastOf(live: seq<TermState>, j: nat, pivotDoc: uint32, ghost states: seq<TermState>,
                     ghost terms: seq<Term>, ghost pos: seq<nat>, ghost order: seq<nat>, ghost idx: seq<nat>)
    returns (last: uint32)
    requires TermsOk(terms) && Separate(states) && At(states, terms, pos, pivotDoc)
    requires Selects(states, live, order) && Live(terms, pos, order)
    requires j < |idx| <= |order| && CurDoc(terms, pos, order, j) == pivotDoc
    requires OnBlocks(live, idx, pivotDoc)
    modifies live[j].cur`shallowIdx
    ensures At(states, terms, pos, pivotDoc)
    ensures pivotDoc <= last == live[j].cur.l.blocks[idx[j]].lastDoc
  {
    ShallowTo(live[j], pivotDoc, states, order[j], terms, pos);
    LiveFacts(states, terms, pos, pivotDoc, live, order, j);
    assert OnBlock(live[j].cur.l, idx[j], pivotDoc);
    last := live[j].cur.BlockLastDoc();
  }

  // ----- advancing

  method AdvanceOne(ts: TermState, target: uint32, ghost states: seq<TermState>, ghost i: nat,
                    ghost terms: seq<Term>, ghost pos: seq<nat>, ghost frontier: nat)
    requires Separate(states) && At(states, terms, pos, frontier)
    requires i < |states| && ts == states[i] && pos[i] < |terms[i].ps|
    modifies ts.Footprint()
    ensures At(states, terms, pos[i := FirstGEQ(terms[i].ps, pos[i], target)], frontier)
  {
    assert StateAt(states[i], terms[i], pos[i], frontier);
    ts.Advance(target);
    ghost var pos' := pos[i := FirstGEQ(terms[i].ps, pos[i], target)];
    forall m | 0 <= m < |states| ensures StateAt(states[m], terms[m], pos'[m], frontier) {
      if m != i {
        assert states[m].Footprint() !! states[i].Footprint();
        assert old(StateAt(states[m], terms[m], pos[m], frontier));
      }
    }
  }

  /** Every live term whose document is picked advances to target. */
  method AdvancePicked(live: seq<TermState>, pick: uint32 -> bool, target: uint32, ghost states: seq<TermState>,
                       ghost terms: seq<Term>, ghost pos: seq<nat>, ghost frontier: nat, ghost order: seq<nat>,
                       ghost s: set<nat>, ghost next: nat)
    requires Separate(states) && At(states, terms, pos, frontier) && InRange(terms, pos)
    requires Selects(states, live, order) && Live(terms, pos, order) && Distinct(order)
    requires Picked(terms, pos, order, |order|, pick) == s && frontier <= next
    modifies LiveObjects(live)
    ensures At(states, terms, Advanced(terms, pos, s, target), next)
  {
    ghost var now := pos;
    ShallowMonotone(states, terms, pos, frontier, next);
    assert Advanced(terms, pos, Picked(terms, pos, order, 0, pick), target) == pos;
    for j := 0 to |live|
      invariant now == Advanced(terms, pos, Picked(terms, pos, order, j, pick), target)
      invariant At(states, terms, now, next)
    {
      PickedStep(terms, pos, order, j, pick, target);
      OneFact(states, terms, now, next, order[j]);
      if pick(live[j].doc) {
        AdvanceOne(live[j], target, states, order[j], terms, now, next);
        now := now[order[j] := FirstGEQ(terms[order[j]].ps, now[order[j]], target)];
      }
    }
  }

  /** The terms on the front document move past it, unless its successor wraps. */
  method AdvanceFront(live: seq<TermState>, pivotDoc: uint32, ghost states: seq<TermState>,
                      ghost terms: seq<Term>, ghost pos: seq<nat>, ghost order: seq<nat>, ghost n: nat)
    requires TermsOk(terms) && Separate(states) && At(states, terms, pos, pivotDoc)
    requires Selects(states, live, order) && Front(terms, pos, order, pivotDoc, n) && pivotDoc < MAX_DOC
    modifies LiveObjects(live)
    ensures At(states, terms, Advanced(terms, pos, Sitting(terms, pos, pivotDoc), pivotDoc + 1), pivotDoc + 1)
    ensures InRange(terms, Advanced(terms, pos, Sitting(terms, pos, pivotDoc), pivotDoc + 1))
    ensures Progress(pos, Advanced(terms, pos, Sitting(terms, pos, pivotDoc), pivotDoc + 1))
  {
    var pick := (d: uint32) => d == pivotDoc;
    FrontAdvance(terms, pos, order, pivotDoc, n, pick);
    AdvancePicked(live, pick, Inc32(pivotDoc), states, terms, pos, pivotDoc, order,
                  Sitting(terms, pos, pivotDoc), pivotDoc + 1);
  }

  /** The same on the largest id: the terms are told to advance to document 0 and stay. */
  method AdvanceLast(live: seq<TermState>, ghost states: seq<TermState>,
                     ghost terms: seq<Term>, ghost pos: seq<nat>, ghost order: seq<nat>, ghost n: nat)
    requires TermsOk(terms) && Separate(states) && At(states, terms, pos, MAX_DOC)
    requires Selects(states, live, order) && Front(terms, pos, order, MAX_DOC, n)
    modifies LiveObjects(live)
    ensures At(states, terms, pos, MAX_DOC)
  {
    var pick := (d: uint32) => d == MAX_DOC;
    FrontPicked(terms, pos, order, MAX_DOC, n, pick);
    AdvancedToZero(terms, pos, Sitting(terms, pos, MAX_DOC));
    AdvancePicked(live, pick, Inc32(MAX_DOC), states, terms, pos, MAX_DOC, order, Sitting(terms, pos, MAX_DOC), MAX_DOC);
  }

  /** The terms below target move up to it; below 0 there are none. */
  method AdvanceBelow(live: seq<TermState>, pivotDoc: uint32, target: uint32, ghost states: seq<TermState>,
                      ghost terms: seq<Term>, ghost pos: seq<nat>, ghost order: seq<nat>, ghost n: nat)
    requires Separate(states) && At(states, terms, pos, pivotDoc)
    requires Selects(states, live, order) && Front(terms, pos, order, pivotDoc, n) && (pivotDoc < target || target == 0)
    requires n < |order| ==> target <= CurDoc(terms, pos, order, n)
    modifies LiveObjects(live)
    ensures target > 0 ==> At(states, terms, Advanced(terms, pos, Sitting(terms, pos, pivotDoc), target), target)
    ensures target == 0 ==> At(states, terms, pos, pivotDoc)
  {
    var pick := (d: uint32) => d < target;
    if target == 0 {
      AdvancedToZero(terms, pos, {});
      AdvancePicked(live, pick, target, states, terms, pos, pivotDoc, order, {}, pivotDoc);
      return;
    }
    forall j | 0 <= j < |order| ensures pick(CurDoc(terms, pos, order, j)) <==> j < n {
      assert n < j ==> CurDoc(terms, pos, order, n) <= CurDoc(terms, pos, order, j);
    }
    PickedAre(terms, pos, order, n, pivotDoc, pick);
    AdvancePicked(live, pick, target, states, terms, pos, pivotDoc, order, Sitting(terms, pos, pivotDoc), target);
  }

  // ----- the loop

  method FrontScore(live: seq<TermState>, pivotDoc: uint32, ghost states: seq<TermState>,
                    ghost terms: seq<Term>, ghost k: nat, ghost st: Scan, ghost order: seq<nat>, ghost n: nat, ghost p: nat)
    returns (score: real)
    requires At(states, terms, st.pos, pivotDoc) && Inv(terms, k, st)
    requires Selects(states, live, order) && Front(terms, st.pos, order, pivotDoc, n)
    requires p < n && SumOver(Bounds(terms), order[..p + 1]) > st.threshold
    ensures score == DocScore(terms, pivotDoc) && At(states, terms, st.pos, pivotDoc)
  {
    FrontPivot(terms, k, st, pivotDoc, order, n, p);
    score := ScoreDoc(live, pivotDoc, states, terms, st.pos, pivotDoc, order);
    LiveSum(terms, st.pos, order, pivotDoc, Masked(Contributions(terms, pivotDoc), Sitting(terms, st.pos, pivotDoc)));
  }

  method PushFront(pivotDoc: uint32, score: real, k: nat, h: seq<Hit>, threshold: real,
                   ghost terms: seq<Term>, ghost st: Scan, ghost order: seq<nat>, ghost n: nat, ghost p: nat)
    returns (h': seq<Hit>, threshold': real, ghost st': Scan)
    requires ScanInv(terms, k, st, h, threshold) && Front(terms, st.pos, order, pivotDoc, n)
    requires p < n && SumOver(Bounds(terms), order[..p + 1]) > threshold && score == DocScore(terms, pivotDoc)
    ensures ScanInv(terms, k, st', h', threshold') && Sets(h', threshold', k)
    ensures st'.pos == Advanced(terms, st.pos, Sitting(terms, st.pos, pivotDoc), pivotDoc + 1) && st'.frontier == pivotDoc + 1
  {
    FrontPivot(terms, k, st, pivotDoc, order, n, p);
    ghost var top';
    h', threshold', top' := PushTop(h, Hit(pivotDoc, score), k, threshold, st.top, HitsBelow(terms, pivotDoc));
    PushedTopOk(terms, k, st, pivotDoc, threshold', top');
    PushKeepsInv(terms, k, st, pivotDoc, threshold', top');
    st' := Scan(Advanced(terms, st.pos, Sitting(terms, st.pos, pivotDoc), pivotDoc + 1), pivotDoc + 1, threshold', top');
  }

  /** Scoring and pushing touch no term. */
  method PushFrontAt(live: seq<TermState>, pivotDoc: uint32, k: nat, h: seq<Hit>, threshold: real,
                     ghost states: seq<TermState>, ghost terms: seq<Term>, ghost st: Scan, ghost order: seq<nat>, ghost n: nat, ghost p: nat)
    returns (h': seq<Hit>, threshold': real, ghost st': Scan)
    requires At(states, terms, st.pos, pivotDoc) && Selects(states, live, order)
    requires ScanInv(terms, k, st, h, threshold) && Front(terms, st.pos, order, pivotDoc, n)
    requires p < n && SumOver(Bounds(terms), order[..p + 1]) > threshold
    ensures At(states, terms, st.pos, pivotDoc) && ScanInv(terms, k, st', h', threshold') && Sets(h', threshold', k)
    ensures st'.pos == Advanced(terms, st.pos, Sitting(terms, st.pos, pivotDoc), pivotDoc + 1) && st'.frontier == pivotDoc + 1
  {
    var score := FrontScore(live, pivotDoc, states, terms, k, st, order, n, p);
    h', threshold', st' := PushKeeping(pivotDoc, score, k, h, threshold, states, terms, st, order, n, p);
  }

  method PushKeeping(pivotDoc: uint32, score: real, k: nat, h: seq<Hit>, threshold: real,
                     ghost states: seq<TermState>, ghost terms: seq<Term>, ghost st: Scan, ghost order: seq<nat>, ghost n: nat, ghost p: nat)
    returns (h': seq<Hit>, threshold': real, ghost st': Scan)
    requires At(states, terms, st.pos, pivotDoc) && score == DocScore(terms, pivotDoc)
    requires ScanInv(terms, k, st, h, threshold) && Front(terms, st.pos, order, pivotDoc, n)
    requires p < n && SumOver(Bounds(terms), order[..p + 1]) > threshold
    ensures At(states, terms, st.pos, pivotDoc) && ScanInv(terms, k, st', h', threshold') && Sets(h', threshold', k)
    ensures st'.pos == Advanced(terms, st.pos, Sitting(terms, st.pos, pivotDoc), pivotDoc + 1) && st'.frontier == pivotDoc + 1
  {
    h', threshold', st' := PushFront(pivotDoc, score, k, h, threshold, terms, st, order, n, p);
    forall i | 0 <= i < |states| ensures StateAt(states[i], terms[i], st.pos[i], pivotDoc) {
      assert old(StateAt(states[i], terms[i], st.pos[i], pivotDoc));
    }
  }

  /** The front document is the pivot: score it, push it, and move its terms past it. */
  method ScoreFront(live: seq<TermState>, pivotDoc: uint32, k: nat, h: seq<Hit>, threshold: real,
                    ghost states: seq<TermState>, ghost terms: seq<Term>, ghost st: Scan, ghost order: seq<nat>,
                    ghost n: nat, ghost p: nat)
    returns (turn: Turn, h': seq<Hit>, threshold': real, ghost st': Scan)
    requires LoopInv(states, terms, k, st, pivotDoc, h, threshold)
    requires Selects(states, live, order) && Front(terms, st.pos, order, pivotDoc, n)
    requires p < n && SumOver(Bounds(terms), order[..p + 1]) > threshold
    modifies LiveObjects(live)
    ensures Turned(turn, states, terms, k, st, threshold, st', h', threshold') && (turn.Moved? || turn.Scored?)
  {
    h', threshold', st' := PushFrontAt(live, pivotDoc, k, h, threshold, states, terms, st, order, n, p);
    if pivotDoc < MAX_DOC {
      AdvanceFront(live, pivotDoc, states, terms, st.pos, order, n);
      turn := Moved;
    } else {
      FrontIsLast(terms, k, st, order, n, p);
      AllBelowEnd(terms);
      AdvanceLast(live, states, terms, st.pos, order, n);
      turn := Scored;
    }
  }

  /** The block bounds at the front cannot beat the threshold: jump. */
  method SkipBlock(live: seq<TermState>, pivotDoc: uint32,
                   ghost k: nat, ghost h: seq<Hit>, ghost threshold: real, ghost states: seq<TermState>,
                   ghost terms: seq<Term>, ghost st: Scan, ghost order: seq<nat>, ghost n: nat, ghost idx: seq<nat>)
    returns (moved: bool, ghost st': Scan)
    requires LoopInv(states, terms, k, st, pivotDoc, h, threshold) && st.frontier <= MAX_DOC
    requires Selects(states, live, order) && Front(terms, st.pos, order, pivotDoc, n) && |idx| == n
    requires OnBlocks(live, idx, pivotDoc)
    requires Sum(LiveBounds(live, idx, pivotDoc)) <= threshold && threshold > 0.0
    modifies LiveObjects(live)
    ensures st'.frontier <= MAX_DOC && (moved ==> LoopInv(states, terms, k, st', st'.frontier, h, threshold) && Progress(st.pos, st'.pos))
    ensures !moved ==> LoopInv(states, terms, k, st, pivotDoc, h, threshold) && st' == st && MAX_DOC in AllDocs(terms)
  {
    FrontDocs(terms, st.pos, order, pivotDoc);
    CursorsWithin(live);
    var target := SkipTarget(live, pivotDoc, states, terms, st.pos, order, n, idx);
    if target == 0 {
      WrapIsHeld(states, live, terms, st.pos, order, pivotDoc, idx[0]);
      AdvanceBelow(live, pivotDoc, target, states, terms, st.pos, order, n);
      return false, st;
    }
    moved := true;
    LiveBoundsRange(states, live, terms, st.pos, order, idx, pivotDoc, target);
    FrontSkip(terms, k, st, pivotDoc, target, order, n, LiveBounds(live, idx, pivotDoc));
    AdvanceBelow(live, pivotDoc, target, states, terms, st.pos, order, n);
    FrontShrinks(terms, st.pos, order, pivotDoc, n, target);
    st' := st.(pos := Advanced(terms, st.pos, Sitting(terms, st.pos, pivotDoc), target), frontier := target);
  }

  lemma WrapIsHeld(states: seq<TermState>, live: seq<TermState>, terms: seq<Term>, pos: seq<nat>, order: seq<nat>, f: nat, b: nat)
    requires At(states, terms, pos, f) && Selects(states, live, order) && Live(terms, pos, order) && |live| > 0
    requires b < |live[0].cur.l.blocks| && live[0].cur.l.blocks[b].lastDoc == MAX_DOC
    ensures MAX_DOC in AllDocs(terms)
  {
    LiveFacts(states, terms, pos, f, live, order, 0);
    BlockEndHeld(live[0], terms[order[0]], pos[order[0]], f, b);
    var j :| 0 <= j < |terms[order[0]].ps| && terms[order[0]].ps[j].doc == MAX_DOC;
    assert terms[order[0]].ps[j].doc in AllDocs(terms);
  }

  /** The strongest live term before the pivot. */
  method PickBefore(live: seq<TermState>, pivot: nat, ghost states: seq<TermState>,
                    ghost terms: seq<Term>, ghost pos: seq<nat>, ghost f: nat, ghost order: seq<nat>)
    returns (best: nat)
    requires TermsOk(terms) && At(states, terms, pos, f) && Collected(states, live, order) && Bounded(live, order, terms)
    requires pivot < |live| && live[0].doc != live[pivot].doc
    ensures At(states, terms, pos, f)
    ensures best < |live| && Live(terms, pos, order) && CurDoc(terms, pos, order, best) < CurDoc(terms, pos, order, pivot)
    ensures live[pivot].doc == CurDoc(terms, pos, order, pivot)
  {
    CollectedIsOrdered(states, terms, pos, f, live, order);
    BoundsNonNegative(live, order, terms);
    assert live[0].doc <= live[pivot].doc;
    LiveFacts(states, terms, pos, f, live, order, pivot);
    best := PickAdvance(live, live[pivot].doc);
    forall i | 0 <= i < |states| ensures StateAt(states[i], terms[i], pos[i], f) {
      assert old(StateAt(states[i], terms[i], pos[i], f));
    }
    LiveFacts(states, terms, pos, f, live, order, best);
  }

  /** The lists disagree on the pivot: the strongest term before it moves up to it. */
  method RealignTerm(live: seq<TermState>, pivot: nat, ghost k: nat, ghost h: seq<Hit>, ghost threshold: real,
                     ghost states: seq<TermState>, ghost terms: seq<Term>, ghost st: Scan, ghost order: seq<nat>)
    returns (ghost st': Scan)
    requires LoopInv(states, terms, k, st, st.frontier, h, threshold) && Collected(states, live, order)
    requires pivot < |live| && live[0].doc != live[pivot].doc
    requires Bounded(live, order, terms) && Ordered(terms, st.pos, order)
    requires SumOver(Bounds(terms), order[..pivot]) <= threshold
    modifies LiveObjects(live)
    ensures LoopInv(states, terms, k, st', st'.frontier, h, threshold)
    ensures Progress(st.pos, st'.pos) && st'.frontier == st.frontier
  {
    var best := PickBefore(live, pivot, states, terms, st.pos, st.frontier, order);
    var target := live[pivot].doc;
    ghost var i := order[best];
    st' := Realigned(terms, k, st, order, pivot, best);
    AdvanceOne(live[best], target, states, i, terms, st.pos, st.frontier);
  }

  /** The front document is the pivot: skip its blocks if their bounds cannot beat the threshold,
      else score it. */
  method AtPivot(live: seq<TermState>, pivot: nat, k: nat, h: seq<Hit>, threshold: real,
                 ghost states: seq<TermState>, ghost terms: seq<Term>, ghost st: Scan, ghost order: seq<nat>)
    returns (turn: Turn, h': seq<Hit>, threshold': real, ghost st': Scan)
    requires LoopInv(states, terms, k, st, st.frontier, h, threshold) && st.frontier <= MAX_DOC
    requires Selects(states, live, order) && Ordered(terms, st.pos, order) && Distinct(order)
    requires pivot < |live| && CurDoc(terms, st.pos, order, 0) == CurDoc(terms, st.pos, order, pivot)
    requires live[pivot].doc == CurDoc(terms, st.pos, order, pivot)
    requires SumOver(Bounds(terms), order[..pivot + 1]) > threshold
    modifies LiveObjects(live)
    ensures Turned(turn, states, terms, k, st, threshold, st', h', threshold')
    ensures !turn.Ended? && (turn.Stuck? ==> h' == h && threshold' == threshold && st' == st)
  {
    var pivotDoc := live[pivot].doc;
    ghost var n := FrontOf(terms, st, order, pivot);
    ShallowMonotone(states, terms, st.pos, st.frontier, pivotDoc);
    FrontDocs(terms, st.pos, order, pivotDoc);
    CursorsWithin(live);
    var bound, idx := BlockMaxSum(live, pivotDoc, states, terms, st.pos, order, n);
    if bound <= threshold && threshold > 0.0 {
      h', threshold' := h, threshold;
      var moved;
      moved, st' := SkipBlock(live, pivotDoc, k, h, threshold, states, terms, st, order, n, idx);
      turn := if moved then Moved else Stuck;
    } else {
      turn, h', threshold', st' := ScoreFront(live, pivotDoc, k, h, threshold, states, terms, st, order, n, pivot);
    }
  }

  /** The live terms in order and the pivot among them, if there is one. */
  method Arrange(states: seq<TermState>, threshold: real, ghost terms: seq<Term>, ghost pos: seq<nat>, ghost f: nat)
    returns (live: seq<TermState>, pivot: int, ghost order: seq<nat>)
    requires At(states, terms, pos, f) && threshold >= 0.0
    ensures At(states, terms, pos, f) && Collected(states, live, order) && Bounded(live, order, terms)
    ensures Ordered(terms, pos, order) && LiveObjects(live) <= Objects(states)
    ensures -1 <= pivot < |live|
    ensures pivot < 0 ==> SumOver(Bounds(terms), order) <= threshold
    ensures pivot >= 0 ==>
              && SumOver(Bounds(terms), order[..pivot]) <= threshold < SumOver(Bounds(terms), order[..pivot + 1])
              && live[0].doc == CurDoc(terms, pos, order, 0) && live[pivot].doc == CurDoc(terms, pos, order, pivot)
  {
    AtBounds(states, terms, pos, f);
    live, order := LiveSorted(states);
    pivot := -1;
    if |live| > 0 {
      pivot := FindPivot(live, threshold, order, terms);
    }
    forall i | 0 <= i < |states| ensures StateAt(states[i], terms[i], pos[i], f) {
      assert old(StateAt(states[i], terms[i], pos[i], f));
    }
    CollectedIsOrdered(states, terms, pos, f, live, order);
    LiveWithin(states, live, order);
    if pivot >= 0 {
      LiveFacts(states, terms, pos, f, live, order, 0);
      LiveFacts(states, terms, pos, f, live, order, pivot);
    }
  }

  /** One turn of the loop: it consumes a posting, or ends with the exact top k, or meets the largest
      document id. */
  method Step(states: seq<TermState>, k: nat, h: seq<Hit>, threshold: real, ghost terms: seq<Term>, ghost st: Scan)
    returns (turn: Turn, h': seq<Hit>, threshold': real, ghost st': Scan)
    requires LoopInv(states, terms, k, st, st.frontier, h, threshold) && st.frontier <= MAX_DOC
    modifies Objects(states)
    ensures Turned(turn, states, terms, k, st, threshold, st', h', threshold')
    ensures turn.Stuck? || turn.Ended? ==> h' == h && threshold' == threshold && st' == st
  {
    turn, h', threshold', st' := Ended, h, threshold, st;
    var live, pivot, order := Arrange(states, threshold, terms, st.pos, st.frontier);
    if pivot < 0 {
      StopTurn(states, terms, k, st, h, threshold, order);
    } else if live[0].doc == live[pivot].doc {
      turn, h', threshold', st' := AtPivot(live, pivot, k, h, threshold, states, terms, st, order);
    } else {
      turn, st' := RealignTurn(live, pivot, k, h, threshold, states, terms, st, order);
    }
  }

  lemma StopTurn(states: seq<TermState>, terms: seq<Term>, k: nat, st: Scan, h: seq<Hit>, threshold: real, order: seq<nat>)
    requires LoopInv(states, terms, k, st, st.frontier, h, threshold) && st.frontier <= MAX_DOC
    requires Ordered(terms, st.pos, order) && Distinct(order) && SumOver(Bounds(terms), order) <= threshold
    ensures Turned(Ended, states, terms, k, st, threshold, st, h, threshold)
  {
    Stop(terms, k, st, order);
  }

  method RealignTurn(live: seq<TermState>, pivot: nat, ghost k: nat, ghost h: seq<Hit>, ghost threshold: real,
                     ghost states: seq<TermState>, ghost terms: seq<Term>, ghost st: Scan, ghost order: seq<nat>)
    returns (turn: Turn, ghost st': Scan)
    requires LoopInv(states, terms, k, st, st.frontier, h, threshold) && st.frontier <= MAX_DOC && Collected(states, live, order)
    requires pivot < |live| && live[0].doc != live[pivot].doc
    requires Bounded(live, order, terms) && Ordered(terms, st.pos, order)
    requires SumOver(Bounds(terms), order[..pivot]) <= threshold
    modifies LiveObjects(live)
    ensures turn.Moved? && Turned(turn, states, terms, k, st, threshold, st', h, threshold)
  {
    st' := RealignTerm(live, pivot, k, h, threshold, states, terms, st, order);
    turn := Moved;
  }

  /** A term on its first document. */
  method StartTerm(t: TermInput) returns (ts: TermState)
    requires InputOk(t)
    modifies CursorObjects(t.cursor)
    ensures fresh(ts) && ts.cur == t.cursor && StateAt(ts, InputTerm(t), 0, 0)
  {
    ts := new TermState(t.cursor, t.scorer, t.scorer.maxScore(t.maxFreq));
    ts.Advance(0);
  }

  method StartOne(inputs: seq<TermInput>, n: nat, ghost states: seq<TermState>) returns (ts: TermState)
    requires n == |states| < |inputs| && Started(inputs, states) && Pending(inputs, n) && InputsApart(inputs)
    modifies CursorObjects(inputs[n].cursor)
    ensures Started(inputs, states + [ts]) && Pending(inputs, n + 1) && fresh(ts)
  {
    assert InputOk(inputs[n]);
    ts := StartTerm(inputs[n]);
    forall i | 0 <= i < n ensures StateAt(states[i], InputTerm(inputs[i]), 0, 0) {
      assert old(StateAt(states[i], InputTerm(inputs[i]), 0, 0));
      StartedUntouched(inputs, states[i], i, n);
    }
    StartedMore(inputs, states, ts, n);
  }

  /** Every cursor on its first document. */
  method Start(inputs: seq<TermInput>) returns (states: seq<TermState>)
    requires InputsOk(inputs)
    modifies InputObjects(inputs)
    ensures Started(inputs, states) && |states| == |inputs| && forall s :: s in states ==> fresh(s)
  {
    states := [];
    for n := 0 to |inputs|
      invariant |states| == n && Started(inputs, states) && Pending(inputs, n)
      invariant forall s :: s in states ==> fresh(s)
    {
      var ts := StartOne(inputs, n, states);
      states := states + [ts];
    }
  }

  // ----- on the largest document id

  /** Every live term is on the largest id: the bounds of the live terms are those of its terms. */
  lemma LastLive(terms: seq<Term>, pos: seq<nat>, order: seq<nat>)
    requires TermsOk(terms) && AllOnLast(terms, pos) && Ordered(terms, pos, order) && Distinct(order)
    ensures SumOver(Bounds(terms), order) == UpperBound(terms, MAX_DOC)
    ensures |order| > 0 ==> Front(terms, pos, order, MAX_DOC, |order|)
    ensures SumOver(Masked(Contributions(terms, MAX_DOC), Sitting(terms, pos, MAX_DOC)), order) == DocScore(terms, MAX_DOC)
  {
    assert Elements(order) == Sitting(terms, pos, MAX_DOC);
    SumOverIsMasked(Bounds(terms), order);
    var xs := Contributions(terms, MAX_DOC);
    LiveSum(terms, pos, order, MAX_DOC, Masked(xs, Sitting(terms, pos, MAX_DOC)));
    assert Masked(xs, Sitting(terms, pos, MAX_DOC)) == xs;
  }

  lemma {:induction false} SumOverGrows(terms: seq<Term>, order: seq<nat>, p: nat)
    requires TermsOk(terms) && p <= |order| && forall j :: 0 <= j < |order| ==> order[j] < |terms|
    ensures SumOver(Bounds(terms), order[..p]) <= SumOver(Bounds(terms), order)
    decreases |order|
  {
    if p == |order| {
      assert order[..p] == order;
    } else {
      var n := |order| - 1;
      SumOverGrows(terms, order[..n], p);
      assert order[..n][..p] == order[..p];
      assert TermOk(terms[order[n]]);
    }
  }

  /** The last document scores no more than the bounds of the blocks that hold it. */
  lemma LastWithinBlocks(states: seq<TermState>, live: seq<TermState>, terms: seq<Term>, pos: seq<nat>, order: seq<nat>, idx: seq<nat>)
    requires LastAt(states, terms, pos) && Selects(states, live, order) && Ordered(terms, pos, order) && Distinct(order)
    requires |idx| == |order| && OnBlocks(live, idx, MAX_DOC)
    ensures DocScore(terms, MAX_DOC) <= Sum(LiveBounds(live, idx, MAX_DOC))
  {
    var bs := LiveBounds(live, idx, MAX_DOC);
    LiveBoundsRange(states, live, terms, pos, order, idx, MAX_DOC, MAX_DOC + 1);
    SpreadBounds(terms, order, |order|, bs, MAX_DOC, MAX_DOC + 1);
    assert order[..|order|] == order;
    var s := Elements(order);
    assert s == WithDoc(terms, MAX_DOC);
    var xs, ys := Contributions(terms, MAX_DOC), Masked(Spread(order, bs, |terms|), s);
    forall i | 0 <= i < |terms| ensures xs[i] <= ys[i] {
      if i in s { assert BoundsRange(terms[i], Spread(order, bs, |terms|)[i], MAX_DOC, MAX_DOC + 1); }
    }
    SumMono(xs, ys);
  }

  ghost function LastHit(terms: seq<Term>): Hit
  {
    Hit(MAX_DOC, DocScore(terms, MAX_DOC))
  }

  /** The block bounds cannot beat the threshold: the skip wraps and moves nothing. */
  method LastSkip(live: seq<TermState>, ghost states: seq<TermState>, ghost terms: seq<Term>, ghost pos: seq<nat>,
                  ghost order: seq<nat>, ghost idx: seq<nat>)
    requires LastAt(states, terms, pos) && Selects(states, live, order) && Front(terms, pos, order, MAX_DOC, |order|)
    requires |idx| == |order| && OnBlocks(live, idx, MAX_DOC)
    modifies LiveObjects(live)
    ensures LastAt(states, terms, pos)
  {
    FrontDocs(terms, pos, order, MAX_DOC);
    CursorsWithin(live);
    var target := SkipTarget(live, MAX_DOC, states, terms, pos, order, |order|, idx);
    AdvanceBelow(live, MAX_DOC, target, states, terms, pos, order, |order|);
  }

  /** The last document is scored and pushed, and the advance past it wraps. */
  method LastScore(live: seq<TermState>, k: nat, h: seq<Hit>, threshold: real, ghost states: seq<TermState>,
                   ghost terms: seq<Term>, ghost pos: seq<nat>, ghost order: seq<nat>)
    returns (h': seq<Hit>, threshold': real, pushed: bool)
    requires LastAt(states, terms, pos) && Selects(states, live, order) && Front(terms, pos, order, MAX_DOC, |order|)
    requires IsHeap(h, Worse) && |h| <= k && Sets(h, threshold, k)
    modifies LiveObjects(live)
    ensures LastAt(states, terms, pos) && PushedLast(h, LastHit(terms), k, h', pushed) && |h'| <= k && Sets(h', threshold', k)
  {
    LastLive(terms, pos, order);
    var score := ScoreDoc(live, MAX_DOC, states, terms, pos, MAX_DOC, order);
    AdvanceLast(live, states, terms, pos, order, |order|);
    h', threshold', pushed := PushLast(h, Hit(MAX_DOC, score), k, threshold, states, terms, pos);
  }

  method PushLast(h: seq<Hit>, hit: Hit, k: nat, threshold: real, ghost states: seq<TermState>, ghost terms: seq<Term>, ghost pos: seq<nat>)
    returns (h': seq<Hit>, threshold': real, pushed: bool)
    requires LastAt(states, terms, pos) && IsHeap(h, Worse) && |h| <= k && Sets(h, threshold, k)
    ensures LastAt(states, terms, pos) && PushedLast(h, hit, k, h', pushed) && |h'| <= k && Sets(h', threshold', k)
  {
    h', threshold', pushed := PushAgain(h, hit, k, threshold);
    assert |multiset(h')| == |h'| && |multiset(h)| == |h|;
    forall i | 0 <= i < |states| ensures StateAt(states[i], terms[i], pos[i], MAX_DOC) {
      assert old(StateAt(states[i], terms[i], pos[i], MAX_DOC));
    }
  }

  /** A turn of the loop on the largest id: it ends, or pushes the last hit and moves nothing. */
  method LastTurn(states: seq<TermState>, k: nat, h: seq<Hit>, threshold: real, ghost terms: seq<Term>, ghost pos: seq<nat>)
    returns (ended: bool, h': seq<Hit>, threshold': real, pushed: bool)
    requires LastAt(states, terms, pos) && IsHeap(h, Worse) && |h| <= k && Sets(h, threshold, k) && HitsOk(h, MAX_DOC)
    modifies Objects(states)
    ensures LastAt(states, terms, pos) && (ended <==> UpperBound(terms, MAX_DOC) <= threshold)
    ensures !ended ==> PushedLast(h, LastHit(terms), k, h', pushed) && |h'| <= k && Sets(h', threshold', k)
  {
    if |h| == k { RootIsLow(h); }
    ended, h', threshold', pushed := false, h, threshold, false;
    var live, pivot, order := Arrange(states, threshold, terms, pos, MAX_DOC);
    LastLive(terms, pos, order);
    if pivot < 0 {
      ended := true;
      return;
    }
    SumOverGrows(terms, order, pivot + 1);
    h', threshold', pushed := LastPivot(live, live[pivot].doc, k, h, threshold, states, terms, pos, order);
  }

  method LastPivot(live: seq<TermState>, pivotDoc: uint32, k: nat, h: seq<Hit>, threshold: real, ghost states: seq<TermState>,
                   ghost terms: seq<Term>, ghost pos: seq<nat>, ghost order: seq<nat>)
    returns (h': seq<Hit>, threshold': real, pushed: bool)
    requires LastAt(states, terms, pos) && Selects(states, live, order) && Front(terms, pos, order, MAX_DOC, |order|) && pivotDoc == MAX_DOC
    requires IsHeap(h, Worse) && |h| <= k && Sets(h, threshold, k) && HitsOk(h, MAX_DOC)
    modifies LiveObjects(live)
    ensures LastAt(states, terms, pos) && PushedLast(h, LastHit(terms), k, h', pushed) && |h'| <= k && Sets(h', threshold', k)
  {
    FrontDocs(terms, pos, order, MAX_DOC);
    CursorsWithin(live);
    var bound, idx := BlockMaxSum(live, pivotDoc, states, terms, pos, order, |order|);
    if bound <= threshold && threshold > 0.0 {
      LastWithinBlocks(states, live, terms, pos, order, idx);
      RootIsLow(h);
      h', threshold', pushed := h, threshold, false;
      LastSkip(live, states, terms, pos, order, idx);
    } else {
      h', threshold', pushed := LastScore(live, k, h, threshold, states, terms, pos, order);
    }
  }

  lemma LastHitIn(terms: seq<Term>)
    requires TermsOk(terms) && MAX_DOC in PositiveDocs(terms)
    ensures LastHit(terms) in Hits(terms, PositiveDocs(terms))
    ensures 0.0 <= LastHit(terms).score <= UpperBound(terms, MAX_DOC) && UpperBound(terms, MAX_DOC) > 0.0
    ensures forall x :: x in Hits(terms, PositiveDocs(terms)) ==> x.score >= 0.0 && x.doc <= MAX_DOC
  {
    ScoreNonNegative(terms, MAX_DOC);
    ScoreAtMostBound(terms, MAX_DOC);
    PositiveBound(terms, MAX_DOC);
    forall x | x in Hits(terms, PositiveDocs(terms)) ensures x.score >= 0.0 && x.doc <= MAX_DOC {
      ScoreNonNegative(terms, x.doc);
    }
  }

  /** From the first scoring of the largest id on: the last hit is taken until it fills the heap, and then
      the loop ends if and only if the bounds of its terms are no more than the threshold. */
  method SearchLast(states: seq<TermState>, k: nat, h0: seq<Hit>, threshold0: real, ghost terms: seq<Term>, ghost pos: seq<nat>, ghost top: set<Hit>)
    returns (out: Outcome)
    requires LastAt(states, terms, pos) && MAX_DOC in PositiveDocs(terms) && IsHeap(h0, Worse) && Sets(h0, threshold0, k)
    requires multiset(h0) == multiset(top) && IsTopSet(top, Hits(terms, PositiveDocs(terms)), k, Better)
    modifies Objects(states)
    ensures Settled(out, Hits(terms, PositiveDocs(terms)), LastHit(terms), k, LastHit(terms) in top, UpperBound(terms, MAX_DOC))
  {
    ghost var all, last := Hits(terms, PositiveDocs(terms)), LastHit(terms);
    LastHitIn(terms);
    var h, threshold := h0, threshold0;
    ghost var b, w, c := PhaseStarts(h, threshold, top, all, last, k);
    while true
      invariant LastAt(states, terms, pos) && Phase(h, threshold, b, w, c, last, k, all, last in top)
      decreases k - c
    {
      var end;
      end, h, threshold, w := LastRound(states, k, h, threshold, terms, pos, b, w, c, last in top);
      if end.Some? {
        return end.value;
      }
      c := c + 1;
    }
  }

  /** One turn and what it comes to. */
  method LastRound(states: seq<TermState>, k: nat, h: seq<Hit>, threshold: real, ghost terms: seq<Term>, ghost pos: seq<nat>,
                   ghost b: set<Hit>, ghost w: set<Hit>, ghost c: nat, ghost inTop: bool)
    returns (end: Option<Outcome>, h': seq<Hit>, threshold': real, ghost w': set<Hit>)
    requires LastAt(states, terms, pos) && MAX_DOC in PositiveDocs(terms)
    requires Phase(h, threshold, b, w, c, LastHit(terms), k, Hits(terms, PositiveDocs(terms)), inTop)
    modifies Objects(states)
    ensures LastAt(states, terms, pos)
    ensures end.Some? ==> Settled(end.value, Hits(terms, PositiveDocs(terms)), LastHit(terms), k, inTop, UpperBound(terms, MAX_DOC))
    ensures end.None? ==> Phase(h', threshold', b, w', c + 1, LastHit(terms), k, Hits(terms, PositiveDocs(terms)), inTop)
  {
    ghost var all, last := Hits(terms, PositiveDocs(terms)), LastHit(terms);
    LastHitIn(terms);
    end, w' := None, w;
    var ended, pushed;
    ended, h', threshold', pushed := LastTurn(states, k, h, threshold, terms, pos);
    if !ended && pushed {
      w' := PhaseGoesOn(h, threshold, b, w, c, last, k, all, inTop, h', threshold');
    } else if !ended {
      PhaseStalls(h, threshold, b, w, c, last, k, all, inTop);
      end := Some(NeverReturns);
    } else {
      var out := FinishLast(states, k, h, threshold, terms, pos, b, w, c, inTop);
      end := Some(out);
    }
  }

  method FinishLast(ghost states: seq<TermState>, k: nat, h: seq<Hit>, threshold: real, ghost terms: seq<Term>, ghost pos: seq<nat>,
                    ghost b: set<Hit>, ghost w: set<Hit>, ghost c: nat, ghost inTop: bool)
    returns (out: Outcome)
    requires LastAt(states, terms, pos) && MAX_DOC in PositiveDocs(terms) && UpperBound(terms, MAX_DOC) <= threshold
    requires Phase(h, threshold, b, w, c, LastHit(terms), k, Hits(terms, PositiveDocs(terms)), inTop)
    ensures LastAt(states, terms, pos)
    ensures Settled(out, Hits(terms, PositiveDocs(terms)), LastHit(terms), k, inTop, UpperBound(terms, MAX_DOC))
  {
    LastHitIn(terms);
    out := Finish(h, threshold, k, b, w, c, LastHit(terms), Hits(terms, PositiveDocs(terms)), inTop, UpperBound(terms, MAX_DOC));
    forall i | 0 <= i < |states| ensures StateAt(states[i], terms[i], pos[i], MAX_DOC) {
      assert old(StateAt(states[i], terms[i], pos[i], MAX_DOC));
    }
  }

  /** What a call returns: the top k, with the largest id repeated if it comes in. */
  ghost function Answer(terms: seq<Term>, k: int): seq<Hit>
  {
    BetterIsTotal();
    if MAX_DOC in PositiveDocs(terms) then Repeated(Hits(terms, PositiveDocs(terms)), LastHit(terms), k)
    else TopK(Hits(terms, PositiveDocs(terms)), k, Better)
  }

  /** A top set that misses the last hit is full of better ones. */
  lemma MissesLast(terms: seq<Term>, k: nat, st: Scan)
    requires TermsOk(terms) && TopOk(terms, k, st) && st.frontier <= MAX_DOC && MAX_DOC in PositiveDocs(terms)
    ensures |st.top| == k ==> |PositiveDocs(terms)| > k
    ensures IsTopSet(st.top, Hits(terms, PositiveDocs(terms)), k, Better) ==>
              |st.top| == k <= |Ahead(Hits(terms, PositiveDocs(terms)), LastHit(terms))|
  {
    var all, last := Hits(terms, PositiveDocs(terms)), LastHit(terms);
    LastHitIn(terms);
    HitsSize(terms, PositiveDocs(terms));
    assert last !in st.top;
    assert st.top <= all - {last};
    SubsetSize(st.top, all - {last});
    if IsTopSet(st.top, all, k, Better) {
      assert st.top <= Ahead(all, last);
      SubsetSize(st.top, Ahead(all, last));
    }
  }

  /** The k best documents of the disjunction, best first, although most are never scored. A call returns
      unless it meets document id 2^32 - 1, which it may return several times. */
  method WAND(inputs: seq<TermInput>, k: int) returns (out: Outcome)
    requires InputsOk(inputs)
    modifies InputObjects(inputs)
    ensures StrictTotal(Better)
    ensures MAX_DOC !in AllDocs(InputTerms(inputs)) ==>
              out == Returned(TopK(Hits(InputTerms(inputs), PositiveDocs(InputTerms(inputs))), k, Better))
    ensures out.Returned? ==> out.hits == Answer(InputTerms(inputs), k)
    ensures MAX_DOC in PositiveDocs(InputTerms(inputs)) && |PositiveDocs(InputTerms(inputs))| <= k ==>
              (out.Returned? <==> UpperBound(InputTerms(inputs), MAX_DOC) <= DocScore(InputTerms(inputs), MAX_DOC))
  {
    BetterIsTotal();
    ghost var terms := InputTerms(inputs);
    PositiveAmongAll(terms);
    if k <= 0 || |inputs| == 0 {
      return Returned([]);
    }
    InputTermsOk(inputs);
    var states := Start(inputs);
    StartedLoop(inputs, states, k);
    StartedObjects(inputs, states);
    out := Search(states, k, terms);
  }

  lemma PositiveAmongAll(terms: seq<Term>)
    ensures PositiveDocs(terms) <= AllDocs(terms)
  {
  }

  method Search(states: seq<TermState>, k: nat, ghost terms: seq<Term>) returns (out: Outcome)
    requires LoopInv(states, terms, k, Scan(seq(|terms|, i => 0), 0, 0.0, {}), 0, [], 0.0)
    modifies Objects(states)
    ensures Concluded(out, terms, k)
  {
    var h, threshold := [], 0.0;
    ghost var st := Scan(seq(|terms|, i => 0), 0, 0.0, {});
    while true
      invariant LoopInv(states, terms, k, st, st.frontier, h, threshold) && st.frontier <= MAX_DOC
      decreases Remaining(terms, st.pos)
    {
      ghost var before := st;
      var turn;
      turn, h, threshold, st := Step(states, k, h, threshold, terms, st);
      if turn.Moved? {
        ProgressShrinks(terms, before.pos, st.pos);
      } else {
        out := Conclude(turn, states, k, h, threshold, terms, before, st);
        return;
      }
    }
  }

  /** What is known of a call, however it goes. */
  ghost predicate Concluded(out: Outcome, terms: seq<Term>, k: nat)
  {
    && (out.Returned? ==> out.hits == Answer(terms, k)) && (out.NeverReturns? ==> MAX_DOC in AllDocs(terms))
    && (MAX_DOC in PositiveDocs(terms) && |PositiveDocs(terms)| <= k ==>
          (out.Returned? <==> UpperBound(terms, MAX_DOC) <= DocScore(terms, MAX_DOC)))
  }

  /** The turn was the last, or the largest id was met. */
  method Conclude(turn: Turn, states: seq<TermState>, k: nat, h: seq<Hit>, threshold: real, ghost terms: seq<Term>, ghost before: Scan, ghost st: Scan)
    returns (out: Outcome)
    requires !turn.Moved? && Turned(turn, states, terms, k, before, threshold, st, h, threshold) && TermsOk(terms) && k > 0
    requires turn.Stuck? ==> TopOk(terms, k, st) && st.threshold == threshold && st.frontier <= MAX_DOC
    modifies Objects(states)
    ensures Concluded(out, terms, k)
  {
    PositiveAmongAll(terms);
    match turn
    case Ended => out := ConcludeEnded(k, h, threshold, terms, st);
    case Stuck =>
      if MAX_DOC in PositiveDocs(terms) { MissesLast(terms, k, st); }
      out := NeverReturns;
    case Scored =>
      LastScoredIn(terms, k, st.top);
      out := SearchLast(states, k, h, threshold, terms, before.pos, st.top);
  }

  method ConcludeEnded(k: nat, h: seq<Hit>, ghost threshold: real, ghost terms: seq<Term>, ghost st: Scan) returns (out: Outcome)
    requires ScanInv(terms, k, st, h, threshold) && IsTopSet(st.top, Hits(terms, PositiveDocs(terms)), k, Better) && st.frontier <= MAX_DOC
    ensures Concluded(out, terms, k)
  {
    BetterIsTotal();
    if MAX_DOC in PositiveDocs(terms) { MissesLast(terms, k, st); }
    var hits := Drain(h, st.top);
    TopSetIsTopK(st.top, Hits(terms, PositiveDocs(terms)), k, Better);
    out := Returned(hits);
  }

  lemma LastScoredIn(terms: seq<Term>, k: nat, top: set<Hit>)
    requires TermsOk(terms) && MAX_DOC in PositiveDocs(terms) && IsTopSet(top, Hits(terms, PositiveDocs(terms)), k, Better)
    ensures |PositiveDocs(terms)| <= k ==> LastHit(terms) in top
  {
    LastHitIn(terms);
    HitsSize(terms, PositiveDocs(terms));
    SubsetSize(top, Hits(terms, PositiveDocs(terms)));
  }
}
