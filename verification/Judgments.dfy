/**
 Paying for judgments, one per record: what `backend/db.py` selects for a judgment run,
 what the run asks the model and pays for, what it stores and what it hands on to sibling
 listings, while shops replace their snapshots, products come back at new URLs and sweeps
 move keys.

 A run selects once. It pays for a question when it asks it, whether or not it still
 holds the claim; it stores the answer, if there is one, only in a transaction that does.
 So a run that was taken over may pay for what its replacement pays for too, and the
 theorems say exactly how far that goes.
 */
module Judgments {
  import opened Options
  import opened FoldKeys

  type RunId = nat

  datatype Answer = Answer(recommended: bool, reason: string)

  /** A `stock_item_judgments` row; `record` is the record the verdict is about, and is
      missing on one that was imported or written before the column existed. */
  datatype Judgment = Judgment(record: Option<string>, answer: Answer, at: Time)

  datatype Question = Question(key: ItemKey, record: string)

  /** What a judgment is billed per. */
  function Group(f: Folds, q: Question): (string, string) { (f.artist(q.key.artist), q.record) }

  /** An answer a run stored. */
  datatype Stored = Stored(question: Question, answer: Answer)

  /** A question a run put to the model: the `i`th of its selection. */
  datatype Payment = Payment(run: RunId, i: nat, question: Question)

  type Verdicts = map<ItemKey, Judgment>

  /** The BEFORE UPDATE trigger on `stock_item_judgments`: a new verdict that names the
      record of the one it replaces says nothing about which of the two is meant. */
  function Triggered(was: Judgment, j: Judgment): Judgment {
    if (j.answer != was.answer || j.at != was.at) && j.record == was.record then j.(record := None) else j
  }

  /** `upsert_stock_judgments`, for one result. */
  function Upserted(judgments: Verdicts, q: Question, answer: Answer, now: Time): Verdicts {
    var named := Judgment(Some(q.record), answer, now);
    judgments[q.key := if q.key in judgments then Triggered(judgments[q.key], named) else named]
  }

  /** The artist stored beside an item folds as the artist its key hashes. */
  predicate ArtistsAgree(f: Folds, s: Store) {
    && (forall id :: id in s.rows ==> f.artist(s.rows[id].artist) == f.artist(s.rows[id].key.artist))
    && (forall k :: k in s.identities ==> f.artist(s.identities[k].artist) == f.artist(k.artist))
  }

  /** The verdict under `k` was reached about the record of `row`: by its own attribution,
      or, when it has none, by its identity's key where no live row contradicts that. */
  predicate AboutRecordOf(s: Store, judgments: Verdicts, k: ItemKey, row: StockRow)
    requires k in s.identities && k in judgments
  {
    || judgments[k].record == row.recordKey
    || (&& judgments[k].record.None?
        && s.identities[k].recordKey == row.recordKey
        && forall amb :: amb in s.rows && s.rows[amb].key == k ==> s.rows[amb].recordKey == s.identities[k].recordKey)
  }

  predicate RecordVerdict(f: Folds, s: Store, judgments: Verdicts, k: ItemKey, row: StockRow) {
    && k in s.identities && k in judgments && row.recordKey.Some?
    && f.artist(s.identities[k].artist) == f.artist(row.artist)
    && AboutRecordOf(s, judgments, k, row)
  }

  /** The row's record already has a verdict: through its own item key whatever the keys
      say, or through any identity of the same record, in stock or not. */
  predicate Judged(f: Folds, s: Store, judgments: Verdicts, row: StockRow) {
    || (row.key in s.identities && row.key in judgments)
    || exists k :: k in judgments && RecordVerdict(f, s, judgments, k, row)
  }

  /** Row `id` is one a run would bill `q` for. */
  predicate Billable(f: Folds, s: Store, judgments: Verdicts, owned: set<RowId>, id: RowId, q: Question) {
    && id in s.rows && id !in owned
    && s.rows[id].key == q.key && s.rows[id].recordKey == Some(q.record)
    && !Judged(f, s, judgments, s.rows[id])
  }

  predicate CanBill(f: Folds, s: Store, judgments: Verdicts, owned: set<RowId>, q: Question) {
    exists id :: id in s.rows && Billable(f, s, judgments, owned, id, q)
  }

  /** No two questions share a record group, and no two share an item key. */
  predicate AllDistinct(f: Folds, questions: seq<Question>) {
    forall i, j :: 0 <= i < j < |questions| ==>
      questions[i].key != questions[j].key && Group(f, questions[i]) != Group(f, questions[j])
  }

  /** What `get_unjudged_stock_items` may answer: billable rows, once per record group and
      once per item key. */
  ghost predicate Selection(f: Folds, s: Store, judgments: Verdicts, owned: set<RowId>, questions: seq<Question>) {
    && AllDistinct(f, questions)
    && forall i :: 0 <= i < |questions| ==> CanBill(f, s, judgments, owned, questions[i])
  }

  /** `propagate_stock_judgments` may give item `key` the verdict under `source`. */
  predicate Inherits(f: Folds, s: Store, judgments: Verdicts, owned: set<RowId>, id: RowId, source: ItemKey) {
    && id in s.rows && id !in owned && s.rows[id].recordKey.Some?
    && s.rows[id].key !in judgments
    && s.rows[id].key in s.identities && s.identities[s.rows[id].key].recordKey == s.rows[id].recordKey
    && RecordVerdict(f, s, judgments, source, s.rows[id])
  }

  /** What a run selected, how many answers had been stored by then, and which of its
      questions it has asked and stored an answer to. */
  datatype Run = Run(selected: seq<Question>, since: nat, asked: set<nat>, filed: set<nat>)

  /** `paid` is every question any run asked and `stored` every answer any run stored, in
      order. */
  datatype World = World(
    catalogue: FoldKeys.World, judgments: Verdicts, now: Time,
    holder: Option<RunId>, started: set<RunId>, runs: map<RunId, Run>, paid: seq<Payment>, stored: seq<Stored>)
  {
    function Store(): Store { catalogue.store }

    predicate Selected(run: RunId, i: nat) { run in runs && i < |runs[run].selected| }

    function Asked(run: RunId): set<nat> { if run in runs then runs[run].asked else {} }

    function Filed(run: RunId): set<nat> { if run in runs then runs[run].filed else {} }
  }

  datatype Step =
    | Tick(elapsed: nat)
    | Crawl(step: FoldKeys.Step)
    | StartRun(run: RunId)
    | EndRun
    | Select(run: RunId, owned: set<RowId>, questions: seq<Question>)
    | Ask(run: RunId, i: nat)
    | StoreAnswer(run: RunId, i: nat, answer: Answer)
    | Propagate(run: RunId, owned: set<RowId>, id: RowId, source: ItemKey)

  /** Any catalogue, and no verdict yet. */
  ghost predicate Start(f: Folds, w: World) {
    && w.Store().Valid() && AllFresh(f, w.Store()) && ArtistsAgree(f, w.Store())
    && w.judgments == map[] && w.holder == None && w.started == {} && w.runs == map[]
    && w.paid == [] && w.stored == []
  }

  /** Runs are claimed with fresh tokens and select once; the model answers only what it was
      asked, and what a run writes is fenced on its claim. What a run asks is not. */
  ghost predicate Enabled(f: Folds, w: World, s: Step) {
    match s
    case Tick(_) => true
    case Crawl(step) =>
      FoldKeys.Enabled(w.catalogue, step) && ArtistsAgree(f, FoldKeys.Next(f, w.catalogue, step).store)
    case StartRun(run) => run !in w.started
    case EndRun => true
    case Select(run, owned, questions) =>
      run in w.started && run !in w.runs && Selection(f, w.Store(), w.judgments, owned, questions)
    case Ask(run, i) => w.Selected(run, i) && i !in w.Asked(run)
    case StoreAnswer(run, i, _) =>
      w.holder == Some(run) && w.Selected(run, i) && i in w.Asked(run) && i !in w.Filed(run)
    case Propagate(run, owned, id, source) =>
      w.holder == Some(run) && Inherits(f, w.Store(), w.judgments, owned, id, source)
  }

  ghost function Next(f: Folds, w: World, s: Step): World
    requires Enabled(f, w, s)
  {
    match s
    case Tick(elapsed) => w.(now := w.now + elapsed)
    case Crawl(step) => w.(catalogue := FoldKeys.Next(f, w.catalogue, step))
    case StartRun(run) => w.(holder := Some(run), started := w.started + {run})
    case EndRun => w.(holder := None)
    case Select(run, _, questions) => w.(runs := w.runs[run := Run(questions, |w.stored|, {}, {})])
    case Ask(run, i) =>
      var r := w.runs[run];
      w.(runs := w.runs[run := r.(asked := r.asked + {i})], paid := w.paid + [Payment(run, i, r.selected[i])])
    case StoreAnswer(run, i, answer) =>
      var r := w.runs[run];
      w.(judgments := Upserted(w.judgments, r.selected[i], answer, w.now),
         runs := w.runs[run := r.(filed := r.filed + {i})],
         stored := w.stored + [Stored(r.selected[i], answer)])
    case Propagate(_, _, id, source) =>
      var row := w.Store().rows[id];
      w.(judgments := w.judgments[row.key := w.judgments[source].(record := row.recordKey)])
  }

  ghost predicate Leads(f: Folds, prior: World, s: Step, w: World) {
    Enabled(f, prior, s) && w == Next(f, prior, s)
  }

  ghost predicate Reaches(f: Folds, origin: World, steps: seq<Step>, w: World)
    decreases |steps|
  {
    if steps == [] then w == origin
    else
      var earlier, last := steps[..|steps| - 1], steps[|steps| - 1];
      exists prior: World :: Leads(f, prior, last, w) && Reaches(f, origin, earlier, prior)
  }

  // ----- The invariant -----

  function Questions(stored: seq<Stored>): (qs: seq<Question>)
    ensures |qs| == |stored| && forall i :: 0 <= i < |qs| ==> qs[i] == stored[i].question
  {
    if stored == [] then [] else Questions(stored[..|stored| - 1]) + [stored[|stored| - 1].question]
  }

  /** A stored answer stays where it was stored, under the record it was asked about. */
  predicate Kept(w: World, b: Stored) {
    && b.question.key in w.Store().identities && b.question.key in w.judgments
    && w.judgments[b.question.key].record == Some(b.question.record)
    && w.judgments[b.question.key].answer == b.answer
  }

  /** The verdict under `k` is an answer that was paid for about the same record. */
  ghost predicate Earned(f: Folds, w: World, k: ItemKey)
    requires k in w.judgments
  {
    w.judgments[k].record.Some? && exists b :: b in w.stored && Answers(f, b, k, w.judgments[k])
  }

  predicate Answers(f: Folds, b: Stored, k: ItemKey, j: Judgment)
    requires j.record.Some?
  {
    b.answer == j.answer && Group(f, b.question) == Group(f, Question(k, j.record.value))
  }

  predicate Clear(f: Folds, q: Question, b: Stored) {
    q.key != b.question.key && Group(f, q) != Group(f, b.question)
  }

  ghost predicate Inv(f: Folds, w: World) {
    && w.Store().Valid() && AllFresh(f, w.Store()) && ArtistsAgree(f, w.Store())
    && w.runs.Keys <= w.started && (w.holder.Some? ==> w.holder.value in w.started)
    && (forall b :: b in w.stored ==> Kept(w, b))
    && (forall k :: k in w.judgments ==> Earned(f, w, k))
    && AllDistinct(f, Questions(w.stored))
    && (w.holder.Some? && w.holder.value in w.runs ==> OpenInv(f, w, w.runs[w.holder.value]))
  }

  /** The holder's open questions are about records nobody has stored an answer about. */
  ghost predicate OpenInv(f: Folds, w: World, r: Run) {
    && AllDistinct(f, r.selected)
    && (forall i :: 0 <= i < |r.selected| ==> r.selected[i].key in w.Store().identities)
    && forall i, b :: 0 <= i < |r.selected| && i !in r.filed && b in w.stored ==> Clear(f, r.selected[i], b)
  }

  /** A selection never holds a record, or an item, an answer is stored about. */
  lemma SelectionIsClear(f: Folds, w: World, owned: set<RowId>, questions: seq<Question>)
    requires Inv(f, w) && Selection(f, w.Store(), w.judgments, owned, questions)
    ensures forall i :: 0 <= i < |questions| ==> questions[i].key in w.Store().identities
    ensures forall i, b :: 0 <= i < |questions| && b in w.stored ==> Clear(f, questions[i], b)
  {
    forall i | 0 <= i < |questions| ensures questions[i].key in w.Store().identities {
      var id :| Billable(f, w.Store(), w.judgments, owned, id, questions[i]);
    }
    forall i, b | 0 <= i < |questions| && b in w.stored ensures Clear(f, questions[i], b) {
      var id :| Billable(f, w.Store(), w.judgments, owned, id, questions[i]);
      QuestionIsClear(f, w, owned, id, questions[i], b);
    }
  }

  lemma QuestionIsClear(f: Folds, w: World, owned: set<RowId>, id: RowId, q: Question, b: Stored)
    requires w.Store().Valid() && ArtistsAgree(f, w.Store()) && Kept(w, b)
    requires Billable(f, w.Store(), w.judgments, owned, id, q)
    ensures Clear(f, q, b)
  {
    var row := w.Store().rows[id];
    if Group(f, q) == Group(f, b.question) {
      assert RecordVerdict(f, w.Store(), w.judgments, b.question.key, row);
      assert false;
    }
  }

  lemma EarnedStays(f: Folds, w: World, u: World, k: ItemKey)
    requires k in w.judgments && k in u.judgments && u.judgments[k] == w.judgments[k] && Earned(f, w, k)
    requires forall b :: b in w.stored ==> b in u.stored
    ensures Earned(f, u, k)
  {
    var b :| b in w.stored && Answers(f, b, k, w.judgments[k]);
    assert b in u.stored;
  }

  lemma InheritedIsEarned(f: Folds, w: World, s: Step)
    requires ArtistsAgree(f, w.Store()) && s.Propagate? && Enabled(f, w, s)
    requires s.source in w.judgments && Earned(f, w, s.source)
    ensures Earned(f, Next(f, w, s), w.Store().rows[s.id].key)
  {
    var u := Next(f, w, s);
    var b :| b in w.stored && Answers(f, b, s.source, w.judgments[s.source]);
    assert b in u.stored && Answers(f, b, w.Store().rows[s.id].key, u.judgments[w.Store().rows[s.id].key]);
  }

  lemma SameEarned(f: Folds, w: World, u: World)
    requires u.judgments == w.judgments && u.stored == w.stored && forall k :: k in w.judgments ==> Earned(f, w, k)
    ensures forall k :: k in u.judgments ==> Earned(f, u, k)
  {
    forall k | k in u.judgments ensures Earned(f, u, k) { EarnedStays(f, w, u, k); }
  }

  /** Only identities added and judgments under unjudged keys: everything stored is kept. */
  lemma QuietKeeps(f: Folds, w: World, u: World)
    requires Inv(f, w)
    requires u.stored == w.stored && u.holder == w.holder && u.runs == w.runs && u.started == w.started
    requires u.Store().Valid() && AllFresh(f, u.Store()) && ArtistsAgree(f, u.Store())
    requires w.Store().identities.Keys <= u.Store().identities.Keys
    requires forall k :: k in w.judgments ==> k in u.judgments && u.judgments[k] == w.judgments[k]
    requires forall k :: k in u.judgments && k !in w.judgments ==> Earned(f, u, k)
    ensures Inv(f, u)
  {
    forall b | b in u.stored ensures Kept(u, b) { assert Kept(w, b); }
    forall k | k in u.judgments ensures Earned(f, u, k) {
      if k in w.judgments { EarnedStays(f, w, u, k); }
    }
    if u.holder.Some? && u.holder.value in u.runs { assert OpenInv(f, w, w.runs[w.holder.value]); }
  }

  /** Only runs change, the holder's open questions staying clear. */
  lemma RunsKeep(f: Folds, w: World, u: World)
    requires Inv(f, w)
    requires u.catalogue == w.catalogue && u.judgments == w.judgments && u.stored == w.stored && w.started <= u.started
    requires u.runs.Keys <= u.started && (u.holder.Some? ==> u.holder.value in u.started)
    requires u.holder.Some? && u.holder.value in u.runs ==> OpenInv(f, u, u.runs[u.holder.value])
    ensures Inv(f, u)
  {
    hide Earned, AllDistinct, Store.Valid, AllFresh, ArtistsAgree, OpenInv;
    SameEarned(f, w, u);
    forall b | b in u.stored ensures Kept(u, b) { assert Kept(w, b); }
  }

  lemma CrawlKeeps(f: Folds, w: World, step: FoldKeys.Step)
    requires Inv(f, w) && Enabled(f, w, Crawl(step))
    ensures Inv(f, Next(f, w, Crawl(step)))
  {
    hide Earned, OpenInv, AllDistinct, Kept, FoldKeys.Next, FoldKeys.Enabled;
    FoldKeys.StepKeeps(f, w.catalogue, step);
    QuietKeeps(f, w, Next(f, w, Crawl(step)));
  }

  lemma SelectKeeps(f: Folds, w: World, run: RunId, owned: set<RowId>, questions: seq<Question>)
    requires Inv(f, w) && Enabled(f, w, Select(run, owned, questions))
    ensures Inv(f, Next(f, w, Select(run, owned, questions)))
  {
    hide Earned, Kept, Store.Valid, AllFresh, ArtistsAgree;
    SelectionIsClear(f, w, owned, questions);
    SelectionIsDistinct(f, w.Store(), w.judgments, owned, questions);
    hide Selection;
    var u := Next(f, w, Select(run, owned, questions));
    assert OpenInv(f, u, u.runs[run]);
    if u.holder.Some? && u.holder.value in u.runs && u.holder.value != run {
      assert OpenInv(f, w, w.runs[w.holder.value]);
    }
    RunsKeep(f, w, u);
  }

  lemma SelectionIsDistinct(f: Folds, s: Store, judgments: Verdicts, owned: set<RowId>, questions: seq<Question>)
    requires Selection(f, s, judgments, owned, questions)
    ensures AllDistinct(f, questions)
  {
  }

  lemma AskKeeps(f: Folds, w: World, run: RunId, i: nat)
    requires Inv(f, w) && Enabled(f, w, Ask(run, i))
    ensures Inv(f, Next(f, w, Ask(run, i)))
  {
    hide Earned, Kept, Store.Valid, AllFresh, ArtistsAgree, AllDistinct;
    var u := Next(f, w, Ask(run, i));
    if u.holder.Some? && u.holder.value in u.runs { assert OpenInv(f, w, w.runs[w.holder.value]); }
    RunsKeep(f, w, u);
  }

  lemma DistinctSnoc(f: Folds, questions: seq<Question>, q: Question)
    requires AllDistinct(f, questions)
    requires forall p :: p in questions ==> p.key != q.key && Group(f, p) != Group(f, q)
    ensures AllDistinct(f, questions + [q])
  {
  }

  /** An open question is about a record no verdict is stored under, so the trigger leaves
      its answer attributed. */
  lemma AnswerStaysAttributed(f: Folds, w: World, q: Question, answer: Answer)
    requires forall k :: k in w.judgments ==> Earned(f, w, k)
    requires forall b :: b in w.stored ==> Clear(f, q, b)
    ensures Upserted(w.judgments, q, answer, w.now) == w.judgments[q.key := Judgment(Some(q.record), answer, w.now)]
  {
    if q.key in w.judgments {
      var b :| b in w.stored && Answers(f, b, q.key, w.judgments[q.key]);
      assert Clear(f, q, b);
    }
  }

  lemma StoreKeeps(f: Folds, w: World, run: RunId, i: nat, answer: Answer)
    requires Inv(f, w) && Enabled(f, w, StoreAnswer(run, i, answer))
    ensures Inv(f, Next(f, w, StoreAnswer(run, i, answer)))
  {
    hide Upserted, Earned, AllDistinct, FoldKeys.Next, FoldKeys.Enabled, Store.Valid, AllFresh, ArtistsAgree,
         Selection, Inherits;
    var u := Next(f, w, StoreAnswer(run, i, answer));
    var r := w.runs[run];
    var q := r.selected[i];
    AnswerStaysAttributed(f, w, q, answer);
    forall b | b in u.stored ensures Kept(u, b) {
      if b in w.stored { assert Kept(w, b) && Clear(f, q, b); }
    }
    StoredNext(f, w.stored, Stored(q, answer));
    StoredIsEarned(f, w, u, Stored(q, answer));
    OpenShrinks(f, w, u, r, i, answer);
  }

  lemma StoredIsEarned(f: Folds, w: World, u: World, b: Stored)
    requires forall k :: k in w.judgments ==> Earned(f, w, k)
    requires u.stored == w.stored + [b]
    requires u.judgments == w.judgments[b.question.key := Judgment(Some(b.question.record), b.answer, w.now)]
    ensures forall k :: k in u.judgments ==> Earned(f, u, k)
  {
    forall k | k in u.judgments ensures Earned(f, u, k) {
      if k == b.question.key {
        assert b in u.stored && Answers(f, b, k, u.judgments[k]);
      } else {
        EarnedStays(f, w, u, k);
      }
    }
  }

  lemma OpenShrinks(f: Folds, w: World, u: World, r: Run, i: nat, answer: Answer)
    requires i < |r.selected| && OpenInv(f, w, r)
    requires u.stored == w.stored + [Stored(r.selected[i], answer)] && u.Store() == w.Store()
    ensures OpenInv(f, u, r.(filed := r.filed + {i}))
  {
    forall j, b | 0 <= j < |r.selected| && j !in r.filed + {i} && b in u.stored ensures Clear(f, r.selected[j], b) {
      if b !in w.stored { assert b == Stored(r.selected[i], answer) && j != i; }
    }
  }

  lemma StoredNext(f: Folds, stored: seq<Stored>, b: Stored)
    requires AllDistinct(f, Questions(stored)) && forall was :: was in stored ==> Clear(f, b.question, was)
    ensures AllDistinct(f, Questions(stored + [b]))
  {
    var qs := Questions(stored);
    assert (stored + [b])[..|stored|] == stored;
    forall p | p in qs ensures p.key != b.question.key && Group(f, p) != Group(f, b.question) {
      var k :| 0 <= k < |qs| && qs[k] == p;
      assert stored[k] in stored;
    }
    DistinctSnoc(f, qs, b.question);
  }

  lemma PropagateIsQuiet(f: Folds, w: World, s: Step)
    requires s.Propagate? && Enabled(f, w, s)
    ensures var u := Next(f, w, s);
            && u.stored == w.stored && u.holder == w.holder && u.runs == w.runs && u.started == w.started
            && u.Store() == w.Store()
            && (forall k :: k in w.judgments ==> k in u.judgments && u.judgments[k] == w.judgments[k])
            && forall k :: k in u.judgments && k !in w.judgments ==> k == w.Store().rows[s.id].key
  {
    hide AboutRecordOf;
  }

  lemma PropagateKeeps(f: Folds, w: World, s: Step)
    requires Inv(f, w) && s.Propagate? && Enabled(f, w, s)
    ensures Inv(f, Next(f, w, s))
  {
    hide Earned, Next, OpenInv, AllDistinct, Kept, Store.Valid, AllFresh, AboutRecordOf;
    InheritedIsEarned(f, w, s);
    PropagateIsQuiet(f, w, s);
    QuietInv(f, w);
    hide Inv, Enabled, ArtistsAgree;
    QuietKeeps(f, w, Next(f, w, s));
  }

  lemma TickKeeps(f: Folds, w: World, s: Step)
    requires Inv(f, w) && s.Tick?
    ensures Inv(f, Next(f, w, s))
  {
    hide Inv, Earned;
    QuietInv(f, w);
    QuietKeeps(f, w, Next(f, w, s));
  }

  lemma QuietInv(f: Folds, w: World)
    requires Inv(f, w)
    ensures w.Store().Valid() && AllFresh(f, w.Store()) && ArtistsAgree(f, w.Store())
    ensures w.runs.Keys <= w.started && (w.holder.Some? ==> w.holder.value in w.started)
  {
  }

  /** A new holder has selected nothing yet. */
  lemma HolderKeeps(f: Folds, w: World, s: Step)
    requires Inv(f, w) && (s.StartRun? || s.EndRun?) && Enabled(f, w, s)
    ensures Inv(f, Next(f, w, s))
  {
    QuietInv(f, w);
    hide Inv;
    RunsKeep(f, w, Next(f, w, s));
  }

  lemma StepKeeps(f: Folds, w: World, s: Step)
    requires Inv(f, w) && Enabled(f, w, s)
    ensures Inv(f, Next(f, w, s))
  {
    hide Inv, Enabled, Next;
    match s
    case Crawl(step) => CrawlKeeps(f, w, step);
    case Select(run, owned, questions) => SelectKeeps(f, w, run, owned, questions);
    case Ask(run, i) => AskKeeps(f, w, run, i);
    case StoreAnswer(run, i, answer) => StoreKeeps(f, w, run, i, answer);
    case Propagate(_, _, _, _) => PropagateKeeps(f, w, s);
    case Tick(_) => TickKeeps(f, w, s);
    case StartRun(_) => HolderKeeps(f, w, s);
    case EndRun => HolderKeeps(f, w, s);
  }

  // ----- What is paid for -----

  /** Every payment is for a question of its run's selection, made once; a selection names
      each record once, and none with an answer stored before it. */
  ghost predicate PaidInv(f: Folds, w: World) {
    && (forall n :: 0 <= n < |w.paid| ==> PaidFor(w, w.paid[n]))
    && (forall m, n :: 0 <= m < n < |w.paid| ==> w.paid[m].run != w.paid[n].run || w.paid[m].i != w.paid[n].i)
    && (forall run :: run in w.runs ==> SelectedFresh(f, w.stored, w.runs[run]))
    && (forall b :: b in w.stored ==> exists p :: p in w.paid && p.question == b.question)
  }

  predicate PaidFor(w: World, p: Payment) {
    && p.run in w.runs && p.i < |w.runs[p.run].selected| && p.i in w.runs[p.run].asked
    && p.question == w.runs[p.run].selected[p.i]
  }

  predicate SelectedFresh(f: Folds, stored: seq<Stored>, r: Run) {
    && AllDistinct(f, r.selected) && r.since <= |stored|
    && (forall i :: i in r.asked ==> i < |r.selected|)
    && (forall i :: i in r.filed ==> i in r.asked)
    && forall i, n :: 0 <= i < |r.selected| && 0 <= n < r.since ==> Clear(f, r.selected[i], stored[n])
  }

  lemma SelectPaid(f: Folds, w: World, run: RunId, owned: set<RowId>, questions: seq<Question>)
    requires Inv(f, w) && PaidInv(f, w) && Enabled(f, w, Select(run, owned, questions))
    ensures PaidInv(f, Next(f, w, Select(run, owned, questions)))
  {
    SelectionIsClear(f, w, owned, questions);
    SelectionIsDistinct(f, w.Store(), w.judgments, owned, questions);
    hide Inv, Selection, AllDistinct, Clear, SelectedFresh;
    var u := Next(f, w, Select(run, owned, questions));
    SelectedAllFresh(f, w.stored, questions);
    forall n | 0 <= n < |u.paid| ensures PaidFor(u, u.paid[n]) { assert PaidFor(w, w.paid[n]); }
  }

  lemma SelectedAllFresh(f: Folds, stored: seq<Stored>, questions: seq<Question>)
    requires AllDistinct(f, questions)
    requires forall i, b :: 0 <= i < |questions| && b in stored ==> Clear(f, questions[i], b)
    ensures SelectedFresh(f, stored, Run(questions, |stored|, {}, {}))
  {
    hide Clear, AllDistinct;
    forall i, n | 0 <= i < |questions| && 0 <= n < |stored| ensures Clear(f, questions[i], stored[n]) {
      assert stored[n] in stored;
    }
  }

  lemma AskPaid(f: Folds, w: World, run: RunId, i: nat)
    requires PaidInv(f, w) && Enabled(f, w, Ask(run, i))
    ensures PaidInv(f, Next(f, w, Ask(run, i)))
  {
    hide AllDistinct, Clear;
    var u := Next(f, w, Ask(run, i));
    forall n | 0 <= n < |u.paid| ensures PaidFor(u, u.paid[n]) {
      if n < |w.paid| { assert PaidFor(w, w.paid[n]); }
    }
    forall m, n | 0 <= m < n < |u.paid| ensures u.paid[m].run != u.paid[n].run || u.paid[m].i != u.paid[n].i {
      if n == |w.paid| { assert PaidFor(w, w.paid[m]); }
    }
    forall r | r in u.runs ensures SelectedFresh(f, u.stored, u.runs[r]) { assert SelectedFresh(f, w.stored, w.runs[r]); }
    forall b | b in u.stored ensures exists p :: p in u.paid && p.question == b.question {
      var p :| p in w.paid && p.question == b.question;
      assert p in u.paid;
    }
  }

  lemma StorePaid(f: Folds, w: World, run: RunId, i: nat, answer: Answer)
    requires PaidInv(f, w) && AskedArePaid(w) && Enabled(f, w, StoreAnswer(run, i, answer))
    ensures PaidInv(f, Next(f, w, StoreAnswer(run, i, answer)))
  {
    hide AllDistinct, Clear, Upserted;
    var u := Next(f, w, StoreAnswer(run, i, answer));
    forall n | 0 <= n < |u.paid| ensures PaidFor(u, u.paid[n]) { assert PaidFor(w, w.paid[n]); }
    forall r | r in u.runs ensures SelectedFresh(f, u.stored, u.runs[r]) { assert SelectedFresh(f, w.stored, w.runs[r]); }
    forall b | b in u.stored ensures exists p :: p in u.paid && p.question == b.question {
      if b !in w.stored {
        var p :| p in w.paid && p.run == run && p.i == i;
        var n :| 0 <= n < |w.paid| && w.paid[n] == p;
        assert PaidFor(w, p);
      }
    }
  }

  /** No question counts as asked that was not paid for. */
  ghost predicate AskedArePaid(w: World) {
    forall run, i :: run in w.runs && i in w.runs[run].asked ==> exists p :: p in w.paid && p.run == run && p.i == i
  }

  lemma AskedStepKeeps(f: Folds, w: World, s: Step)
    requires AskedArePaid(w) && Enabled(f, w, s)
    ensures AskedArePaid(Next(f, w, s))
  {
    hide FoldKeys.Next, FoldKeys.Enabled, Selection, Inherits, Upserted, ArtistsAgree;
    var u := Next(f, w, s);
    forall run, i | run in u.runs && i in u.runs[run].asked ensures exists p :: p in u.paid && p.run == run && p.i == i {
      if s.Ask? && run == s.run && i == s.i {
        assert u.paid[|w.paid|].run == run && u.paid[|w.paid|] in u.paid;
      } else {
        assert run in w.runs && i in w.runs[run].asked;
        var p :| p in w.paid && p.run == run && p.i == i;
        assert p in u.paid;
      }
    }
  }

  lemma PaidStepKeeps(f: Folds, w: World, s: Step)
    requires Inv(f, w) && PaidInv(f, w) && AskedArePaid(w) && Enabled(f, w, s)
    ensures PaidInv(f, Next(f, w, s))
  {
    hide Inv, PaidInv, AskedArePaid, Enabled, Next;
    match s
    case Select(run, owned, questions) => SelectPaid(f, w, run, owned, questions);
    case Ask(run, i) => AskPaid(f, w, run, i);
    case StoreAnswer(run, i, answer) => StorePaid(f, w, run, i, answer);
    case _ =>
      IdleStep(f, w, s);
      IdlePaid(f, w, Next(f, w, s));
  }

  lemma IdleStep(f: Folds, w: World, s: Step)
    requires Enabled(f, w, s) && !s.Select? && !s.Ask? && !s.StoreAnswer?
    ensures var u := Next(f, w, s); u.runs == w.runs && u.paid == w.paid && u.stored == w.stored
  {
    hide FoldKeys.Next, FoldKeys.Enabled, Inherits, ArtistsAgree;
  }

  lemma IdlePaid(f: Folds, w: World, u: World)
    requires PaidInv(f, w) && u.runs == w.runs && u.paid == w.paid && u.stored == w.stored
    ensures PaidInv(f, u)
  {
    hide AllDistinct, Clear, SelectedFresh;
    forall n | 0 <= n < |u.paid| ensures PaidFor(u, u.paid[n]) { assert PaidFor(w, w.paid[n]); }
  }

  // ----- Whole runs -----

  lemma {:induction false} RunKeeps(f: Folds, origin: World, steps: seq<Step>, w: World)
    requires Start(f, origin) && Reaches(f, origin, steps, w)
    ensures Inv(f, w) && PaidInv(f, w) && AskedArePaid(w)
    decreases |steps|
  {
    hide Inv, PaidInv, AskedArePaid, Enabled, Next;
    if steps == [] {
      StartKeeps(f, origin);
    } else {
      var earlier := steps[..|steps| - 1];
      var prior: World :| Leads(f, prior, steps[|steps| - 1], w) && Reaches(f, origin, earlier, prior);
      RunKeeps(f, origin, earlier, prior);
      StepKeeps(f, prior, steps[|steps| - 1]);
      PaidStepKeeps(f, prior, steps[|steps| - 1]);
      AskedStepKeeps(f, prior, steps[|steps| - 1]);
    }
  }

  lemma StartKeeps(f: Folds, w: World)
    requires Start(f, w)
    ensures Inv(f, w) && PaidInv(f, w) && AskedArePaid(w)
  {
  }

  /** How far paying twice can go: two payments for one record are by two runs, never by
      one, and when the run of the later one made its selection no answer about the record
      had been stored. */
  lemma PaidAgainOnlyWhileNothingIsStored(f: Folds, origin: World, steps: seq<Step>, w: World, m: nat, n: nat)
    requires Start(f, origin) && Reaches(f, origin, steps, w)
    requires m < n < |w.paid| && Group(f, w.paid[m].question) == Group(f, w.paid[n].question)
    ensures w.paid[m].run != w.paid[n].run && w.paid[n].run in w.runs && w.runs[w.paid[n].run].since <= |w.stored|
    ensures forall b: nat :: b < w.runs[w.paid[n].run].since ==>
              Group(f, w.stored[b].question) != Group(f, w.paid[n].question)
  {
    RunKeeps(f, origin, steps, w);
    hide Inv;
    assert PaidFor(w, w.paid[m]) && PaidFor(w, w.paid[n]);
    assert SelectedFresh(f, w.stored, w.runs[w.paid[n].run]);
  }

  /** So once a record's answer is stored, it is paid for again only by a run that had
      already selected it. */
  lemma StoredEndsThePaying(f: Folds, origin: World, steps: seq<Step>, w: World, b: nat, n: nat)
    requires Start(f, origin) && Reaches(f, origin, steps, w)
    requires b < |w.stored| && n < |w.paid| && Group(f, w.stored[b].question) == Group(f, w.paid[n].question)
    ensures w.paid[n].run in w.runs && w.runs[w.paid[n].run].since <= b
  {
    RunKeeps(f, origin, steps, w);
    hide Inv, AllDistinct, AskedArePaid, Reaches;
    var p := w.paid[n];
    assert PaidFor(w, p) && SelectedFresh(f, w.stored, w.runs[p.run]);
    assert forall m :: 0 <= m < w.runs[p.run].since ==> Clear(f, w.runs[p.run].selected[p.i], w.stored[m]);
  }

  /** Every stored answer was paid for, and no record's answer is stored twice, however its
      listings and keys move and whoever takes over in between. */
  lemma StoredAtMostOnce(f: Folds, origin: World, steps: seq<Step>, w: World, i: nat, j: nat)
    requires Start(f, origin) && Reaches(f, origin, steps, w)
    requires i < j < |w.stored|
    ensures Group(f, w.stored[i].question) != Group(f, w.stored[j].question)
    ensures exists p :: p in w.paid && p.question == w.stored[i].question
  {
    RunKeeps(f, origin, steps, w);
    var qs := Questions(w.stored);
    assert qs[i] == w.stored[i].question && qs[j] == w.stored[j].question;
    assert w.stored[i] in w.stored;
  }

  /** No selection any run can make holds a record whose verdict is stored. */
  lemma NeverSelectedAgain(f: Folds, origin: World, steps: seq<Step>, w: World,
                           owned: set<RowId>, questions: seq<Question>, i: nat, b: Stored)
    requires Start(f, origin) && Reaches(f, origin, steps, w)
    requires Selection(f, w.Store(), w.judgments, owned, questions)
    requires i < |questions| && b in w.stored
    ensures Group(f, questions[i]) != Group(f, b.question) && questions[i].key != b.question.key
  {
    RunKeeps(f, origin, steps, w);
    SelectionIsClear(f, w, owned, questions);
    assert Clear(f, questions[i], b);
  }

  /** Verdicts never cross records: every listing that carries one carries an answer the
      model gave about that listing's own artist and record. */
  lemma VerdictsNeverCross(f: Folds, origin: World, steps: seq<Step>, w: World, k: ItemKey)
    requires Start(f, origin) && Reaches(f, origin, steps, w) && k in w.judgments
    ensures Earned(f, w, k)
  {
    RunKeeps(f, origin, steps, w);
  }

  /** Why the start has no verdict of its own: over one already attributed to the record,
      an answer about it is stored with no attribution at all. */
  lemma TriggerForgets(judgments: Verdicts, q: Question, answer: Answer, now: Time)
    requires q.key in judgments && judgments[q.key].record == Some(q.record)
    ensures Upserted(judgments, q, answer, now)[q.key].record == None <==>
            (answer != judgments[q.key].answer || now != judgments[q.key].at)
  {
  }

  // ----- A takeover can cost a second payment -----

  ghost predicate Comes(f: Folds, origin: World, w: World) { exists steps :: Reaches(f, origin, steps, w) }

  lemma Onward(f: Folds, origin: World, w: World, s: Step, u: World)
    requires Comes(f, origin, w) && Leads(f, w, s, u)
    ensures Comes(f, origin, u)
  {
    var steps :| Reaches(f, origin, steps, w);
    var all := steps + [s];
    assert all[..|all| - 1] == steps && all[|all| - 1] == s;
    assert Reaches(f, origin, all, u);
  }

  /** One listing of one record in one store. */
  function OneListing(f: Folds, key: ItemKey): Store {
    var record := Some(f.record(key.title, key.artist));
    Store(map[0 := StockRow(0, None, key, key.artist, key.title, None, None, record, 0)],
          map[key := Identity(key.artist, key.title, record)], 1)
  }

  function At(f: Folds, key: ItemKey, holder: Option<RunId>, started: set<RunId>, runs: map<RunId, Run>,
              paid: seq<Payment>): World
  {
    World.World(FoldKeys.World.World(OneListing(f, key), {}, {}), map[], 0, holder, started, runs, paid, [])
  }

  lemma OneIsSelected(f: Folds, key: ItemKey)
    ensures Selection(f, OneListing(f, key), map[], {}, [Question(key, f.record(key.title, key.artist))])
  {
    var q := Question(key, f.record(key.title, key.artist));
    OneIsBillable(f, key);
    SelectionOfOne(f, OneListing(f, key), map[], {}, 0, q);
  }

  lemma OneIsBillable(f: Folds, key: ItemKey)
    ensures Billable(f, OneListing(f, key), map[], {}, 0, Question(key, f.record(key.title, key.artist)))
  {
  }

  lemma SelectionOfOne(f: Folds, s: Store, judgments: Verdicts, owned: set<RowId>, id: RowId, q: Question)
    requires Billable(f, s, judgments, owned, id, q)
    ensures Selection(f, s, judgments, owned, [q])
  {
    var qs := [q];
    forall i | 0 <= i < |qs| ensures CanBill(f, s, judgments, owned, qs[i]) {
      assert qs[i] == q;
    }
  }

  lemma BothSelect(f: Folds, key: ItemKey)
    ensures var r := Run([Question(key, f.record(key.title, key.artist))], 0, {}, {});
            var origin := At(f, key, None, {}, map[], []);
            Start(f, origin) && Comes(f, origin, At(f, key, Some(1), {0, 1}, map[0 := r, 1 := r], []))
  {
    var q := Question(key, f.record(key.title, key.artist));
    var r := Run([q], 0, {}, {});
    var origin := At(f, key, None, {}, map[], []);
    OneIsSelected(f, key);
    hide Selection;
    assert Reaches(f, origin, [], origin);
    Onward(f, origin, origin, StartRun(0), At(f, key, Some(0), {0}, map[], []));
    Onward(f, origin, At(f, key, Some(0), {0}, map[], []), Select(0, {}, [q]), At(f, key, Some(0), {0}, map[0 := r], []));
    Onward(f, origin, At(f, key, Some(0), {0}, map[0 := r], []), StartRun(1), At(f, key, Some(1), {0, 1}, map[0 := r], []));
    Onward(f, origin, At(f, key, Some(1), {0, 1}, map[0 := r], []), Select(1, {}, [q]),
           At(f, key, Some(1), {0, 1}, map[0 := r, 1 := r], []));
  }

  /** A run taken over between selecting and asking, and the run that replaced it, can both
      pay for one record. */
  lemma ATakeoverCanPayTwice(f: Folds, key: ItemKey)
    ensures exists origin, w: World :: Start(f, origin) && Comes(f, origin, w) && |w.paid| == 2
              && w.paid[0].question == w.paid[1].question
  {
    var q := Question(key, f.record(key.title, key.artist));
    var r, asked := Run([q], 0, {}, {}), Run([q], 0, {0}, {});
    var origin := At(f, key, None, {}, map[], []);
    BothSelect(f, key);
    var before := At(f, key, Some(1), {0, 1}, map[0 := r, 1 := r], []);
    var once := At(f, key, Some(1), {0, 1}, map[0 := asked, 1 := r], [Payment(0, 0, q)]);
    var twice := At(f, key, Some(1), {0, 1}, map[0 := asked, 1 := asked], [Payment(0, 0, q), Payment(1, 0, q)]);
    assert {} + {0} == {0};
    Onward(f, origin, before, Ask(0, 0), once);
    Onward(f, origin, once, Ask(1, 0), twice);
  }
}
