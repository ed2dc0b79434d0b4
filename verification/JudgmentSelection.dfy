/**
 Exactly what a judgment run may select, and what a verdict may be handed on to, in every
 world `Judgments` can reach: said of the answers that were stored, not of the tests the
 two statements make.
 */
module JudgmentSelection {
  import opened Options
  import opened FoldKeys
  import opened Judgments

  /** Some listing the user does not own asks the question. */
  ghost predicate Listed(w: Judgments.World, owned: set<RowId>, q: Question) {
    exists id :: id in w.Store().rows && id !in owned && Asks(w.Store().rows[id], q)
  }

  predicate Asks(row: StockRow, q: Question) { row.key == q.key && row.recordKey == Some(q.record) }

  /** An answer about the artist and the record of the question was stored. */
  ghost predicate Answered(f: Folds, w: Judgments.World, q: Question) {
    exists b :: b in w.stored && Group(f, b.question) == Group(f, q)
  }

  /** A verdict that counts for a row was an answer about that row's own artist and record. */
  lemma VerdictIsAnAnswer(f: Folds, w: Judgments.World, k: ItemKey, id: RowId, q: Question)
    requires Judgments.Inv(f, w) && id in w.Store().rows && Asks(w.Store().rows[id], q)
    requires k in w.judgments && RecordVerdict(f, w.Store(), w.judgments, k, w.Store().rows[id])
    ensures Answered(f, w, q)
  {
    assert Earned(f, w, k);
    var b :| b in w.stored && Answers(f, b, k, w.judgments[k]);
    assert Group(f, b.question) == Group(f, q);
  }

  /** And an answer about them counts for the row. */
  lemma AnswerIsAVerdict(f: Folds, w: Judgments.World, b: Stored, id: RowId, q: Question)
    requires Judgments.Inv(f, w) && id in w.Store().rows && Asks(w.Store().rows[id], q)
    requires b in w.stored && Group(f, b.question) == Group(f, q)
    ensures b.question.key in w.judgments && RecordVerdict(f, w.Store(), w.judgments, b.question.key, w.Store().rows[id])
  {
    assert Kept(w, b);
  }

  lemma BillableIff(f: Folds, w: Judgments.World, owned: set<RowId>, id: RowId, q: Question)
    requires Judgments.Inv(f, w) && id in w.Store().rows && id !in owned && Asks(w.Store().rows[id], q)
    ensures Billable(f, w.Store(), w.judgments, owned, id, q) <==> q.key !in w.judgments && !Answered(f, w, q)
  {
    var row := w.Store().rows[id];
    assert row.key in w.Store().identities;
    if b :| b in w.stored && Group(f, b.question) == Group(f, q) { AnswerIsAVerdict(f, w, b, id, q); }
    if k :| k in w.judgments && RecordVerdict(f, w.Store(), w.judgments, k, row) { VerdictIsAnAnswer(f, w, k, id, q); }
  }

  lemma CanBillIff(f: Folds, w: Judgments.World, owned: set<RowId>, q: Question)
    requires Judgments.Inv(f, w)
    ensures CanBill(f, w.Store(), w.judgments, owned, q) <==>
            Listed(w, owned, q) && q.key !in w.judgments && !Answered(f, w, q)
  {
    hide Judgments.Inv, Judged, Answered;
    forall id | id in w.Store().rows && id !in owned && Asks(w.Store().rows[id], q)
      ensures Billable(f, w.Store(), w.judgments, owned, id, q) <==> q.key !in w.judgments && !Answered(f, w, q)
    {
      BillableIff(f, w, owned, id, q);
    }
  }

  /** In every world a run can reach, what may be selected is every list of questions about
      different records and items, each asked by some listing the user does not own, with no
      verdict under its item and no answer stored about its artist and record -- so no
      record is ever asked about twice, and none goes unasked because another artist has one
      of that name. */
  lemma SelectionIff(f: Folds, origin: Judgments.World, steps: seq<Judgments.Step>, w: Judgments.World,
                     owned: set<RowId>, questions: seq<Question>)
    requires Judgments.Start(f, origin) && Reaches(f, origin, steps, w)
    ensures Selection(f, w.Store(), w.judgments, owned, questions) <==>
            && AllDistinct(f, questions)
            && forall i :: 0 <= i < |questions| ==>
                 Listed(w, owned, questions[i]) && questions[i].key !in w.judgments && !Answered(f, w, questions[i])
  {
    hide Judgments.Inv, CanBill, Listed, Answered, AllDistinct, Reaches;
    Judgments.RunKeeps(f, origin, steps, w);
    forall q: Question
      ensures CanBill(f, w.Store(), w.judgments, owned, q) <==>
              Listed(w, owned, q) && q.key !in w.judgments && !Answered(f, w, q)
    {
      CanBillIff(f, w, owned, q);
    }
  }

  /** A listing with no verdict of its own, whose identity carries its record's key, can be
      handed a verdict if and only if an answer about its artist and record was stored. */
  lemma InheritsIff(f: Folds, origin: Judgments.World, steps: seq<Judgments.Step>, w: Judgments.World,
                    owned: set<RowId>, id: RowId, q: Question)
    requires Judgments.Start(f, origin) && Reaches(f, origin, steps, w)
    requires id in w.Store().rows && id !in owned && Asks(w.Store().rows[id], q) && q.key !in w.judgments
    requires q.key in w.Store().identities && w.Store().identities[q.key].recordKey == Some(q.record)
    ensures (exists source :: source in w.judgments && Inherits(f, w.Store(), w.judgments, owned, id, source)) <==>
            Answered(f, w, q)
  {
    hide Judgments.Inv, Reaches, RecordVerdict;
    Judgments.RunKeeps(f, origin, steps, w);
    if b :| b in w.stored && Group(f, b.question) == Group(f, q) { AnswerIsAVerdict(f, w, b, id, q); }
    if k :| k in w.judgments && Inherits(f, w.Store(), w.judgments, owned, id, k) { VerdictIsAnAnswer(f, w, k, id, q); }
  }
}
