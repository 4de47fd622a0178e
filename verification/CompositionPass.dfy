/** The whole composition pass over a statement list, in place. */
module CompositionPass {
  import opened Common
  import opened StatementText
  import opened Expressions
  import opened StraightLine
  import opened Composition
  import opened CompositionFlow

  ghost function TextsOf(recs: seq<StmtRec>): (r: seq<string>)
    ensures Lists(recs, r) && forall i :: 0 <= i < |r| ==> r[i] == recs[i].text
  {
    seq(|recs|, i requires 0 <= i < |recs| => recs[i].text)
  }

  /** Every text is composed from the last writes, and exactly the dead lines are flagged. */
  ghost predicate FollowsFlow(start: seq<StmtRec>, now: seq<StmtRec>) {
    && |start| == |now|
    && (forall i :: 0 <= i < |now| ==> ComposedFrom(start, TextsOf(now), i))
    && (forall i: nat ::
        i < |now| ==> (now[i].removed <==> start[i].removed || DeadLine(start, TextsOf(now), |now|, i)))
  }

  lemma {:induction false} PassFollowsFlow(start: seq<StmtRec>, now: seq<StmtRec>)
    requires Reached(start, now, |start|)
    ensures FollowsFlow(start, now)
  {
    hide TextAt, DeadBy, DeadLine, ComposedFrom;
    assert TextsOf(now) == Texts(start);
    forall i | 0 <= i < |now| ensures ComposedFrom(start, TextsOf(now), i) { TextIsComposed(start, i); }
    forall i: nat | i < |now|
      ensures now[i].removed <==> start[i].removed || DeadLine(start, TextsOf(now), |now|, i)
    {
      DeadIsFlow(start, |start|, i);
      assert i in Flagged(now) <==> i in Flagged(start) || i in DeadBy(start, |start|);
    }
  }

  /** Branch targets keep their texts. */
  ghost predicate LabelsStand(start: seq<StmtRec>, now: seq<StmtRec>) {
    |start| == |now| && forall i :: 0 <= i < |start| && start[i].isLabelTarget ==> now[i].text == start[i].text
  }

  lemma {:induction false} FlowLabelsStand(start: seq<StmtRec>, now: seq<StmtRec>)
    requires FollowsFlow(start, now)
    ensures LabelsStand(start, now)
  {
    hide DeadLine, ComposedFrom;
    forall i | 0 <= i < |start| && start[i].isLabelTarget ensures now[i].text == start[i].text {
      LabelKeepsText(start, TextsOf(now), i);
    }
  }

  /**
   * The in-place pass over a statement list. Whatever the list, only texts and `removed` flags change, branch targets
   * keep their texts, every other text is composed from the last writes, and exactly the dead lines are flagged;
   * on a printed straight-line program the texts become those of the composed program.
   */
  method ComposeExpressions(stmts: array<StmtRec>, ghost prog: seq<Stmt>)
    modifies stmts
    ensures SameRecords(old(stmts[..]), stmts[..])
    ensures LabelsStand(old(stmts[..]), stmts[..]) && FollowsFlow(old(stmts[..]), stmts[..])
    ensures Lifted(old(stmts[..]), prog) ==> PassResult(prog, stmts[..])
  {
    hide StmtText, Composed, StmtOk, ProducersBelow, LiftedAt, Progress, Ready, Gone, Flagged, Straight, PassResult;
    hide Reached, LiveAt, LabelsStand, FollowsFlow;
    ghost var start := stmts[..];
    ghost var tracked := Lifted(start, prog);
    var live: Live := map[];
    StartPass(live, start, prog);
    for idx := 0 to stmts.Length
      invariant ProducersBelow(live, idx)
      invariant SameRecords(start, stmts[..])
      invariant Reached(start, stmts[..], idx) && live == LiveAt(start, idx)
      invariant tracked ==> Progress(start, stmts[..], prog, idx) && Ready(live, prog, idx)
    {
      live := ComposeAt(stmts, live, idx, start, prog, tracked);
    }
    PassFollowsFlow(start, stmts[..]);
    FlowLabelsStand(start, stmts[..]);
    if tracked { PassDone(start, stmts[..], prog); }
  }

  lemma {:induction false} PassDone(start: seq<StmtRec>, now: seq<StmtRec>, prog: seq<Stmt>)
    requires Progress(start, now, prog, |prog|)
    ensures PassResult(prog, now)
  {
    hide StmtText, Composed, Flagged, Gone;
  }

  lemma {:induction false} StartPass(live: Live, start: seq<StmtRec>, prog: seq<Stmt>)
    requires live == map[]
    ensures ProducersBelow(live, 0) && Reached(start, start, 0) && live == LiveAt(start, 0)
    ensures Lifted(start, prog) ==> Progress(start, start, prog, 0) && Ready(live, prog, 0)
  {
    hide StmtText, StmtOk, Straight;
  }
}
