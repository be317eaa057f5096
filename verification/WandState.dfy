/** The retrieval state of each query term and the scan it realises (index/search/wand.go). */
module WandState {
  import opened Bits
  import opened Postings
  import opened Ranking
  import opened Sums
  import opened Sorting
  import opened TopHeap
  import opened WandSpec

  /** One query term. */
  datatype TermInput = TermInput(cursor: Cursor, scorer: Scorer, maxFreq: uint32)

  ghost function InputTerm(t: TermInput): Term
  {
    Term(t.cursor.ps, t.scorer, t.scorer.maxScore(t.maxFreq))
  }

  ghost function InputTerms(inputs: seq<TermInput>): (ts: seq<Term>)
    ensures |ts| == |inputs|
  {
    seq(|inputs|, i requires 0 <= i < |inputs| => InputTerm(inputs[i]))
  }

  /** A fresh cursor, a sound scorer and a frequency bound that covers the list. */
  ghost predicate InputOk(t: TermInput)
    reads CursorObjects(t.cursor)
  {
    && t.cursor.Valid() && t.cursor.Ahead() == 0 && t.cursor.shallowIdx == 0
    && Sound(t.scorer)
    && forall k :: 0 <= k < |t.cursor.ps| ==> t.cursor.ps[k].freq <= t.maxFreq
  }

  class TermState {
    const cur: Cursor
    const scorer: Scorer
    const maxScore: real
    var doc: uint32
    var done: bool

    constructor (cur: Cursor, scorer: Scorer, maxScore: real)
      ensures this.cur == cur && this.scorer == scorer && this.maxScore == maxScore
      ensures doc == 0 && !done
    {
      this.cur, this.scorer, this.maxScore := cur, scorer, maxScore;
      doc, done := 0, false;
    }

    ghost function View(): Term
    {
      Term(cur.ps, scorer, maxScore)
    }

    ghost function Footprint(): set<object>
    {
      {this, cur, cur.docs, cur.freqs}
    }

    /** doc and done mirror the cursor. */
    ghost predicate Tracks()
      reads Footprint()
    {
      && cur.Valid() && cur.blockIdx >= 0
      && (done <==> cur.Ahead() == |cur.ps|)
      && cur.Ahead() <= |cur.ps|
      && (!done ==> doc == cur.ps[cur.Ahead()].doc)
    }

    method Advance(target: uint32)
      requires cur.Valid()
      requires !done
      modifies Footprint()
      ensures Tracks() && cur.shallowIdx == old(cur.shallowIdx)
      ensures old(cur.Ahead()) <= |cur.ps| && cur.Ahead() == FirstGEQ(cur.ps, old(cur.Ahead()), target)
    {
      var d, ok := cur.NextGEQ(target);
      if !ok {
        done := true;
        return;
      }
      doc := d;
    }
  }

  // ----- the states of all terms

  ghost predicate Separate(states: seq<TermState>)
  {
    forall i, j :: 0 <= i < j < |states| ==> states[i].Footprint() !! states[j].Footprint()
  }

  ghost function Objects(states: seq<TermState>): set<object>
  {
    set i, o | 0 <= i < |states| && o in states[i].Footprint() :: o
  }

  /** The states realise the abstract scan positions. */
  ghost predicate At(states: seq<TermState>, terms: seq<Term>, pos: seq<nat>, frontier: nat)
    reads Objects(states)
  {
    && |states| == |terms| == |pos|
    && forall i {:trigger StateAt(states[i], terms[i], pos[i], frontier)} ::
         0 <= i < |states| ==> StateAt(states[i], terms[i], pos[i], frontier)
  }

  ghost predicate StateAt(ts: TermState, t: Term, p: nat, frontier: nat)
    reads ts.Footprint()
  {
    ts.Tracks() && ts.View() == t && ts.cur.Ahead() == p && ts.cur.ShallowBefore(frontier)
  }

  /** live is the states at the indices of order. */
  ghost predicate Selects(states: seq<TermState>, live: seq<TermState>, order: seq<nat>)
  {
    |live| == |order| && forall j :: 0 <= j < |order| ==> order[j] < |states| && live[j] == states[order[j]]
  }

  /** Everything the loop maintains; f is how far the shallow pointers may have gone. */
  ghost predicate LoopInv(states: seq<TermState>, terms: seq<Term>, k: nat, st: Scan, f: nat, h: seq<Hit>, threshold: real)
    reads Objects(states)
  {
    Separate(states) && At(states, terms, st.pos, f) && ScanInv(terms, k, st, h, threshold)
  }

  /** The cursors stand where the scan of the largest id leaves them. */
  ghost predicate LastAt(states: seq<TermState>, terms: seq<Term>, pos: seq<nat>)
    reads Objects(states)
  {
    Separate(states) && At(states, terms, pos, MAX_DOC) && TermsOk(terms) && AllOnLast(terms, pos)
  }

  /** How a turn of the loop goes: there is no pivot; it consumed a posting; it tried to skip past the
      largest id, which wraps, and changed nothing; or it scored the largest id and could not pass it. */
  datatype Turn = Ended | Moved | Stuck | Scored

  ghost predicate Turned(turn: Turn, states: seq<TermState>, terms: seq<Term>, k: nat, st: Scan, threshold: real,
                         st': Scan, h': seq<Hit>, threshold': real)
    reads Objects(states)
  {
    match turn
    case Ended => LoopInv(states, terms, k, st', st'.frontier, h', threshold') && IsTopSet(st'.top, Hits(terms, PositiveDocs(terms)), k, Better)
                  && st'.frontier <= MAX_DOC
    case Moved => LoopInv(states, terms, k, st', st'.frontier, h', threshold') && Progress(st.pos, st'.pos) && st'.frontier <= MAX_DOC
    case Stuck => threshold > 0.0 && MAX_DOC in AllDocs(terms)
    case Scored => LastAt(states, terms, st.pos) && ScanInv(terms, k, st', h', threshold') && Sets(h', threshold', k) && MAX_DOC in PositiveDocs(terms)
                   && st'.frontier == MAX_DOC + 1 && IsTopSet(st'.top, Hits(terms, PositiveDocs(terms)), k, Better)
  }

  function Cursors(live: seq<TermState>): set<Cursor>
  {
    set ts | ts in live :: ts.cur
  }

  ghost function LiveObjects(live: seq<TermState>): set<object>
  {
    set ts, o | ts in live && o in ts.Footprint() :: o
  }

  lemma CursorsWithin(live: seq<TermState>)
    ensures forall c :: c in Cursors(live) ==> c in LiveObjects(live)
  {
    forall ts | ts in live ensures ts.cur in LiveObjects(live) {
      assert ts.cur in ts.Footprint();
    }
  }

  lemma LiveFacts(states: seq<TermState>, terms: seq<Term>, pos: seq<nat>, frontier: nat,
                  live: seq<TermState>, order: seq<nat>, j: nat)
    requires At(states, terms, pos, frontier) && Selects(states, live, order) && Live(terms, pos, order)
    requires j < |live|
    ensures StateAt(live[j], terms[order[j]], pos[order[j]], frontier) && !live[j].done
    ensures live[j].doc == CurDoc(terms, pos, order, j)
  {
    assert StateAt(states[order[j]], terms[order[j]], pos[order[j]], frontier);
  }

  lemma OneFact(states: seq<TermState>, terms: seq<Term>, pos: seq<nat>, frontier: nat, i: nat)
    requires At(states, terms, pos, frontier) && i < |states| && pos[i] < |terms[i].ps|
    ensures states[i].doc == terms[i].ps[pos[i]].doc
  {
    assert StateAt(states[i], terms[i], pos[i], frontier);
  }

  lemma ShallowMonotone(states: seq<TermState>, terms: seq<Term>, pos: seq<nat>, f: nat, f': nat)
    requires At(states, terms, pos, f) && f <= f'
    ensures At(states, terms, pos, f')
  {
    forall i | 0 <= i < |states| ensures StateAt(states[i], terms[i], pos[i], f') {
      assert StateAt(states[i], terms[i], pos[i], f);
    }
  }

  // ----- the live terms in order

  /** The states that are not done, by ascending document. */
  ghost predicate Collected(states: seq<TermState>, live: seq<TermState>, order: seq<nat>)
    reads states
  {
    && Selects(states, live, order) && Distinct(order)
    && (forall j :: 0 <= j < |live| ==> !live[j].done)
    && (forall i :: 0 <= i < |states| && !states[i].done ==> i in order)
    && (forall a, b :: 0 <= a < b < |live| ==> live[a].doc <= live[b].doc)
  }

  lemma SkipKeepsOrder(states: seq<TermState>, n: nat, live: seq<TermState>, order: seq<nat>)
    requires n < |states| && states[n].done && Collected(states[..n], live, order)
    ensures Collected(states[..n + 1], live, order)
  {
    forall i | 0 <= i < n + 1 && !states[..n + 1][i].done
      ensures i in order
    {
      assert states[..n][i] == states[i];
    }
  }

  lemma InsertKeepsOrder(states: seq<TermState>, n: nat, live: seq<TermState>, order: seq<nat>, p: nat)
    requires n < |states| && !states[n].done && Collected(states[..n], live, order) && p <= |live|
    requires forall j :: p <= j < |live| ==> live[j].doc > states[n].doc
    requires p > 0 ==> live[p - 1].doc <= states[n].doc
    ensures Collected(states[..n + 1], Inserted(live, p, states[n]), Inserted(order, p, n))
  {
    var live', order' := Inserted(live, p, states[n]), Inserted(order, p, n);
    InsertKeepsIndices(order, n, p);
    InsertSelects(states, n, live, order, p);
    InsertSorts(live, states[n], p);
    forall i | 0 <= i < n + 1 && !states[..n + 1][i].done
      ensures i in order'
    {
      if i < n { assert states[..n][i] == states[i]; }
    }
    forall j | 0 <= j < |live'| ensures !live'[j].done {
      assert live'[j] == if j < p then live[j] else if j == p then states[n] else live[j - 1];
    }
  }

  lemma InsertSelects(states: seq<TermState>, n: nat, live: seq<TermState>, order: seq<nat>, p: nat)
    requires n < |states| && Selects(states[..n], live, order) && p <= |live|
    ensures Selects(states[..n + 1], Inserted(live, p, states[n]), Inserted(order, p, n))
  {
    var live', order' := Inserted(live, p, states[n]), Inserted(order, p, n);
    forall j | 0 <= j < |order'| ensures order'[j] < n + 1 && live'[j] == states[..n + 1][order'[j]] {
      var k := if j < p then j else j - 1;
      if j != p { assert order'[j] == order[k] && live'[j] == live[k] == states[..n][order[k]]; }
    }
  }

  lemma InsertSorts(live: seq<TermState>, ts: TermState, p: nat)
    requires p <= |live| && forall a, b :: 0 <= a < b < |live| ==> live[a].doc <= live[b].doc
    requires forall j :: p <= j < |live| ==> live[j].doc > ts.doc
    requires p > 0 ==> live[p - 1].doc <= ts.doc
    ensures var live' := Inserted(live, p, ts); forall a, b :: 0 <= a < b < |live'| ==> live'[a].doc <= live'[b].doc
  {
    var live' := Inserted(live, p, ts);
    forall j | 0 <= j < p ensures live[j].doc <= ts.doc {
      assert j < p - 1 ==> live[j].doc <= live[p - 1].doc;
    }
    forall a, b | 0 <= a < b < |live'| ensures live'[a].doc <= live'[b].doc {
      assert live'[a] == if a < p then live[a] else if a == p then ts else live[a - 1];
      assert live'[b] == if b < p then live[b] else if b == p then ts else live[b - 1];
    }
  }

  lemma InsertKeepsIndices(order: seq<nat>, n: nat, p: nat)
    requires p <= |order| && Distinct(order) && forall j :: 0 <= j < |order| ==> order[j] < n
    ensures Distinct(Inserted(order, p, n))
    ensures forall i :: i in Inserted(order, p, n) <==> i == n || i in order
  {
    var order' := Inserted(order, p, n);
    assert order'[p] == n;
    forall i | i in order ensures i in order' {
      var j :| 0 <= j < |order| && order[j] == i;
      assert order'[if j < p then j else j + 1] == i;
    }
  }

  ghost predicate Bounded(live: seq<TermState>, order: seq<nat>, terms: seq<Term>)
  {
    |live| == |order| && forall j :: 0 <= j < |order| ==> order[j] < |terms| && live[j].maxScore == terms[order[j]].bound
  }

  lemma AtBounds(states: seq<TermState>, terms: seq<Term>, pos: seq<nat>, f: nat)
    requires At(states, terms, pos, f)
    ensures |states| == |terms| && forall i :: 0 <= i < |states| ==> states[i].maxScore == terms[i].bound
  {
    forall i | 0 <= i < |states| ensures states[i].maxScore == terms[i].bound {
      assert StateAt(states[i], terms[i], pos[i], f);
    }
  }

  lemma BoundsNonNegative(live: seq<TermState>, order: seq<nat>, terms: seq<Term>)
    requires TermsOk(terms) && Bounded(live, order, terms)
    ensures forall j :: 0 <= j < |live| ==> live[j].maxScore >= 0.0
  {
    forall j | 0 <= j < |live| ensures live[j].maxScore >= 0.0 {
      assert TermOk(terms[order[j]]);
    }
  }

  /** The live states are those with postings left, each on its current posting. */
  lemma CollectedIsOrdered(states: seq<TermState>, terms: seq<Term>, pos: seq<nat>, frontier: nat,
                           live: seq<TermState>, order: seq<nat>)
    requires At(states, terms, pos, frontier) && Collected(states, live, order)
    ensures InRange(terms, pos) && Ordered(terms, pos, order) && Distinct(order)
    ensures Bounded(live, order, terms)
  {
    forall i | 0 <= i < |terms|
      ensures pos[i] <= |terms[i].ps| && (!states[i].done <==> pos[i] < |terms[i].ps|)
      ensures !states[i].done ==> states[i].doc == terms[i].ps[pos[i]].doc && states[i].maxScore == terms[i].bound
    {
      assert StateAt(states[i], terms[i], pos[i], frontier);
    }
  }

  // ----- block bounds

  /** Block b is the one that holds d. */
  ghost predicate OnBlock(l: List, b: nat, d: nat)
  {
    && b < |l.blocks| && l.blocks[b].lastDoc >= d
    && forall j :: 0 <= j < b ==> l.blocks[j].lastDoc < d
  }

  ghost function BlockBound(ts: TermState, b: nat): real
    requires b < |ts.cur.l.blocks|
  {
    ts.scorer.maxScore(ts.cur.l.blocks[b].maxFreq)
  }

  /** The shallow blocks of the first |idx| live terms all hold d. */
  ghost predicate OnBlocks(live: seq<TermState>, idx: seq<nat>, d: nat)
  {
    |idx| <= |live| && forall j :: 0 <= j < |idx| ==> OnBlock(live[j].cur.l, idx[j], d)
  }

  ghost function LiveBounds(live: seq<TermState>, idx: seq<nat>, d: nat): (bs: seq<real>)
    requires OnBlocks(live, idx, d)
    ensures |bs| == |idx|
  {
    seq(|idx|, j requires 0 <= j < |idx| => BlockBound(live[j], idx[j]))
  }

  /** last is at or past d and no later than the end of any of the first n shallow blocks. */
  ghost predicate EndsAfter(live: seq<TermState>, idx: seq<nat>, n: nat, d: nat, last: nat)
    requires OnBlocks(live, idx, d)
  {
    && n <= |idx| && (n > 0 ==> d <= last)
    && forall m :: 0 <= m < n ==> last <= live[m].cur.l.blocks[idx[m]].lastDoc
  }

  lemma EndsAfterStep(live: seq<TermState>, idx: seq<nat>, n: nat, d: nat, last: nat, next: nat)
    requires OnBlocks(live, idx, d) && n < |idx| && EndsAfter(live, idx, n, d, last)
    requires d <= next == live[n].cur.l.blocks[idx[n]].lastDoc
    ensures EndsAfter(live, idx, n + 1, d, if n == 0 || next < last then next else last)
  {
  }

  lemma LiveBoundsSnoc(live: seq<TermState>, idx: seq<nat>, b: nat, d: nat)
    requires OnBlocks(live, idx, d) && |idx| < |live| && OnBlock(live[|idx|].cur.l, b, d)
    ensures OnBlocks(live, idx + [b], d)
    ensures Sum(LiveBounds(live, idx + [b], d)) == Sum(LiveBounds(live, idx, d)) + BlockBound(live[|idx|], b)
  {
    assert LiveBounds(live, idx + [b], d)[..|idx|] == LiveBounds(live, idx, d);
  }

  /** The block that holds d bounds what the term contributes from d to the block's end. */
  lemma BlockBoundsContribution(ts: TermState, t: Term, b: nat, d: nat, e: nat)
    requires TermOk(t) && ts.View() == t && Encodes(ts.cur.l, ts.cur.ps) && OnBlock(ts.cur.l, b, d)
    requires d <= e <= ts.cur.l.blocks[b].lastDoc
    ensures 0.0 <= Contribution(t, e) <= BlockBound(ts, b)
  {
    var m := ts.cur.l.blocks[b].maxFreq;
    if Has(t, e) {
      var k := IndexOf(t, e);
      BlockBounds(ts.cur.l, ts.cur.ps, b, d, k);
      SoundAt(t.scorer, t.ps[k].freq, m);
    } else {
      SoundAt(t.scorer, 0, m);
    }
  }

  lemma LiveBoundsRange(states: seq<TermState>, live: seq<TermState>, terms: seq<Term>, pos: seq<nat>,
                        order: seq<nat>, idx: seq<nat>, d: nat, target: nat)
    requires TermsOk(terms) && At(states, terms, pos, d) && Selects(states, live, order) && Live(terms, pos, order)
    requires OnBlocks(live, idx, d) && d < target
    requires forall j :: 0 <= j < |idx| ==> target <= live[j].cur.l.blocks[idx[j]].lastDoc + 1
    ensures forall j :: 0 <= j < |idx| ==> BoundsRange(terms[order[j]], LiveBounds(live, idx, d)[j], d, target)
  {
    forall j | 0 <= j < |idx|
      ensures BoundsRange(terms[order[j]], LiveBounds(live, idx, d)[j], d, target)
    {
      var t := terms[order[j]];
      LiveFacts(states, terms, pos, d, live, order, j);
      assert TermOk(t);
      forall e | d <= e < target ensures 0.0 <= Contribution(t, e) <= BlockBound(live[j], idx[j]) {
        BlockBoundsContribution(live[j], t, idx[j], d, e);
      }
      assert 0.0 <= Contribution(t, d) <= BlockBound(live[j], idx[j]);
    }
  }

  lemma LiveWithin(states: seq<TermState>, live: seq<TermState>, order: seq<nat>)
    requires Selects(states, live, order)
    ensures LiveObjects(live) <= Objects(states)
  {
    forall ts, o | ts in live && o in ts.Footprint() ensures o in Objects(states) {
      var j :| 0 <= j < |live| && live[j] == ts;
      assert o in states[order[j]].Footprint();
    }
  }

  /** AdvanceShallow from anywhere at or before d lands on the block that holds d. */
  lemma ShallowLands(ts: TermState, t: Term, p: nat, frontier: nat, d: nat)
    requires StateAt(ts, t, p, frontier) && p < |t.ps| && t.ps[p].doc == d
    ensures ts.cur.shallowIdx < |ts.cur.l.blocks|
    ensures ts.cur.shallowIdx == |ts.cur.l.blocks| - 1 ==> ts.cur.l.blocks[ts.cur.shallowIdx].lastDoc >= d
  {
    var c := ts.cur;
    var last := |c.l.blocks| - 1;
    assert Described(c.l, c.ps, last);
  }

  /** A block that ends on d is of a list that holds d. */
  lemma BlockEndHeld(ts: TermState, t: Term, p: nat, frontier: nat, b: nat)
    requires StateAt(ts, t, p, frontier) && b < |ts.cur.l.blocks|
    ensures exists j :: 0 <= j < |t.ps| && t.ps[j].doc == ts.cur.l.blocks[b].lastDoc
  {
    assert Described(ts.cur.l, ts.cur.ps, b);
  }

  // ----- the states at the start

  ghost function InputObjects(inputs: seq<TermInput>): set<object>
  {
    set i, o | 0 <= i < |inputs| && o in CursorObjects(inputs[i].cursor) :: o
  }

  ghost function CursorObjects(c: Cursor): set<object>
  {
    {c, c.docs, c.freqs}
  }

  /** Each input is well formed and no two share a cursor. */
  ghost predicate InputsOk(inputs: seq<TermInput>)
    reads InputObjects(inputs)
  {
    && (forall i {:trigger InputOk(inputs[i])} :: 0 <= i < |inputs| ==> InputOk(inputs[i]))
    && InputsApart(inputs)
  }

  ghost predicate InputsApart(inputs: seq<TermInput>)
  {
    forall i, j :: 0 <= i < j < |inputs| ==> CursorObjects(inputs[i].cursor) !! CursorObjects(inputs[j].cursor)
  }

  /** The inputs from n on are as they came. */
  ghost predicate Pending(inputs: seq<TermInput>, n: nat)
    reads InputObjects(inputs)
  {
    forall i {:trigger InputOk(inputs[i])} :: n <= i < |inputs| ==> InputOk(inputs[i])
  }

  lemma InputTermsOk(inputs: seq<TermInput>)
    requires InputsOk(inputs)
    ensures TermsOk(InputTerms(inputs))
  {
    forall i | 0 <= i < |inputs| ensures TermOk(InputTerms(inputs)[i]) {
      assert InputOk(inputs[i]);
      var t := InputTerm(inputs[i]);
      forall k | 0 <= k < |t.ps| ensures t.scorer.score(t.ps[k].freq) <= t.bound {
        SoundAt(t.scorer, t.ps[k].freq, inputs[i].maxFreq);
      }
      SoundAt(t.scorer, 0, inputs[i].maxFreq);
    }
  }

  /** The first n terms stand on their first document; the other inputs are untouched. */
  ghost predicate Started(inputs: seq<TermInput>, states: seq<TermState>)
    reads Objects(states)
  {
    && |states| <= |inputs|
    && Separate(states)
    && (forall i {:trigger StateAt(states[i], InputTerm(inputs[i]), 0, 0)} ::
          0 <= i < |states| ==> StateAt(states[i], InputTerm(inputs[i]), 0, 0))
    && forall i :: 0 <= i < |states| ==> states[i].cur == inputs[i].cursor && states[i] !in InputObjects(inputs)
  }

  lemma FootprintsApart(a: TermState, b: TermState)
    requires a != b && CursorObjects(a.cur) !! CursorObjects(b.cur)
    requires a !in CursorObjects(b.cur) && b !in CursorObjects(a.cur)
    ensures a.Footprint() !! b.Footprint()
  {
    assert a.Footprint() == {a} + CursorObjects(a.cur);
    assert b.Footprint() == {b} + CursorObjects(b.cur);
  }

  /** Starting input n touches no earlier state. */
  lemma StartedUntouched(inputs: seq<TermInput>, ts: TermState, i: nat, n: nat)
    requires InputsApart(inputs) && i < n < |inputs|
    requires ts.cur == inputs[i].cursor && ts !in InputObjects(inputs)
    ensures ts.Footprint() !! CursorObjects(inputs[n].cursor)
  {
    assert CursorObjects(inputs[i].cursor) !! CursorObjects(inputs[n].cursor);
    assert ts.Footprint() == {ts} + CursorObjects(ts.cur);
    assert forall o :: o in CursorObjects(inputs[n].cursor) ==> o in InputObjects(inputs);
  }

  lemma StartedMore(inputs: seq<TermInput>, states: seq<TermState>, ts: TermState, n: nat)
    requires InputsApart(inputs) && Started(inputs, states) && |states| == n < |inputs|
    requires StateAt(ts, InputTerm(inputs[n]), 0, 0) && ts.cur == inputs[n].cursor
    requires ts !in states && ts !in InputObjects(inputs)
    ensures Started(inputs, states + [ts])
  {
    forall i | 0 <= i < n ensures states[i].Footprint() !! ts.Footprint() {
      assert StateAt(states[i], InputTerm(inputs[i]), 0, 0);
      assert CursorObjects(inputs[i].cursor) !! CursorObjects(inputs[n].cursor);
      assert forall o, m :: 0 <= m < |inputs| && o in CursorObjects(inputs[m].cursor) ==> o in InputObjects(inputs);
      FootprintsApart(states[i], ts);
    }
    var states' := states + [ts];
    forall i | 0 <= i < n + 1 ensures StateAt(states'[i], InputTerm(inputs[i]), 0, 0) {
      if i < n { assert StateAt(states[i], InputTerm(inputs[i]), 0, 0); }
    }
  }

  lemma StartedObjects(inputs: seq<TermInput>, states: seq<TermState>)
    requires Started(inputs, states)
    ensures forall o :: o in Objects(states) ==> o in InputObjects(inputs) || o in states
  {
    forall i, o | 0 <= i < |states| && o in states[i].Footprint() && o !in InputObjects(inputs) ensures o in states {
      assert StateAt(states[i], InputTerm(inputs[i]), 0, 0);
      assert o !in CursorObjects(inputs[i].cursor);
      assert states[i] in states;
    }
  }

  lemma StartedAt(inputs: seq<TermInput>, states: seq<TermState>)
    requires Started(inputs, states) && |states| == |inputs|
    ensures At(states, InputTerms(inputs), seq(|inputs|, i => 0), 0)
  {
    forall i | 0 <= i < |states| ensures StateAt(states[i], InputTerms(inputs)[i], 0, 0) {
      assert StateAt(states[i], InputTerm(inputs[i]), 0, 0);
    }
  }

  lemma StartedLoop(inputs: seq<TermInput>, states: seq<TermState>, k: nat)
    requires Started(inputs, states) && |states| == |inputs| && TermsOk(InputTerms(inputs)) && k > 0
    ensures LoopInv(states, InputTerms(inputs), k, Scan(seq(|inputs|, i => 0), 0, 0.0, {}), 0, [], 0.0)
  {
    StartedAt(inputs, states);
    InvInit(InputTerms(inputs), k);
  }
}
