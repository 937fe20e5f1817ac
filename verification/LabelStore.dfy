/** The labeling store (apps/labeling-server/src/store.rs): active-learning order, idempotent
    recording to an append-only log, and resuming from that log. */
module LabelStore {
  import opened Base

  datatype Message = Message(role: string, text: string)

  datatype Task = Task(id: string, messages: seq<Message>, modelScore: Option<real>, corpusLabel: Option<byte>)

  datatype Submission = Submission(taskId: string, labeler: string, choice: byte, stages: seq<string>)

  /** One line of the corrections log, as far as it can be read back: a correction, some other
      JSON value, text that is no JSON, or bytes that are no text. Only a string `case_id` matters
      on resume; a line that is no JSON is skipped, one that is no text ends the scan. */
  datatype Row =
    | Correction(messages: seq<Message>, choice: byte, stages: seq<string>, caseId: string, source: string,
                 labeler: string)
    | OtherJson(otherCaseId: Option<string>)
    | NotJson
    | NotText

  datatype RecordError = UnknownTask | AppendFailed

  datatype State = State(tasks: seq<Task>, labeled: set<string>, log: seq<Row>)

  const PREFIX: string := "label_"

  function CaseIdOf(row: Row): Option<string> {
    match row
    case Correction(_, _, _, caseId, _, _) => Some(caseId)
    case OtherJson(caseId) => caseId
    case NotJson => None
    case NotText => None
  }

  /** The task id a row marks as done. */
  function MarkedBy(row: Row): Option<string> {
    var c := CaseIdOf(row);
    if c.Some? && PREFIX <= c.value then Some(c.value[|PREFIX|..]) else None
  }

  /** Every line can be read as text. */
  predicate Readable(log: seq<Row>) {
    log == [] || (Readable(Front(log)) && !Last(log).NotText?)
  }

  /** `already_labeled`: the task ids found in the log before the first line that is no text. */
  function Recovered(log: seq<Row>): set<string> {
    if log == [] then {}
    else if !Readable(log) then Recovered(Front(log))
    else
      var m := MarkedBy(Last(log));
      Recovered(Front(log)) + if m.Some? then {m.value} else {}
  }

  function FindTask(tasks: seq<Task>, id: string): Option<Task> {
    if tasks == [] then None else if tasks[0].id == id then Some(tasks[0]) else FindTask(tasks[1..], id)
  }

  function RowFor(task: Task, sub: Submission): Row {
    Correction(task.messages, sub.choice, sub.stages, PREFIX + sub.taskId, "labeling_app", sub.labeler)
  }

  /** Records a label; whether the append to the log succeeds is up to the file system. */
  function Record(s: State, sub: Submission, appendOk: bool): (State, Result<(), RecordError>) {
    if sub.taskId in s.labeled then (s, Ok(()))
    else
      var task := FindTask(s.tasks, sub.taskId);
      if task.None? then (s, Err(UnknownTask))
      else if !appendOk then (s, Err(AppendFailed))
      else (s.(labeled := s.labeled + {sub.taskId}, log := s.log + [RowFor(task.value, sub)]), Ok(()))
  }

  /** A fresh process over the same task pool and log. */
  function Load(tasks: seq<Task>, log: seq<Row>): State {
    State(tasks, Recovered(log), log)
  }

  // ----- Restart agreement -----

  datatype Event = Submit(sub: Submission, appendOk: bool) | Restart

  function Step(s: State, e: Event): State {
    match e
    case Submit(sub, appendOk) => Record(s, sub, appendOk).0
    case Restart => Load(s.tasks, s.log)
  }

  function After(start: State, t: seq<Event>): State {
    if t == [] then start else Step(After(start, Front(t)), Last(t))
  }

  lemma RowMarksItsTask(task: Task, sub: Submission)
    ensures MarkedBy(RowFor(task, sub)) == Some(sub.taskId)
  {
    assert (PREFIX + sub.taskId)[|PREFIX|..] == sub.taskId;
  }

  lemma RecoveredMore(log: seq<Row>, row: Row)
    ensures Readable(log + [row]) <==> Readable(log) && !row.NotText?
    ensures Recovered(log + [row])
         == Recovered(log) + if Readable(log + [row]) && MarkedBy(row).Some? then {MarkedBy(row).value} else {}
  {
    assert Front(log + [row]) == log;
  }

  /** What the process remembers is exactly what a restart would recover. */
  predicate Agrees(tasks: seq<Task>, log: seq<Row>, t: seq<Event>) {
    var s := After(Load(tasks, log), t);
    s.labeled == Recovered(s.log)
  }

  /** Over a log of readable lines that holds after any run of submissions (repeated, unknown, or
      failing to append) and restarts at any point. */
  lemma {:induction false} RestartAgreement(tasks: seq<Task>, log: seq<Row>, t: seq<Event>)
    requires Readable(log)
    ensures Agrees(tasks, log, t)
    ensures Readable(After(Load(tasks, log), t).log) && After(Load(tasks, log), t).tasks == tasks
  {
    if t != [] {
      RestartAgreement(tasks, log, Front(t));
      var s := After(Load(tasks, log), Front(t));
      if Last(t).Submit? && FindTask(s.tasks, Last(t).sub.taskId).Some? {
        var task := FindTask(s.tasks, Last(t).sub.taskId).value;
        RowMarksItsTask(task, Last(t).sub);
        RecoveredMore(s.log, RowFor(task, Last(t).sub));
      }
    }
  }

  /** How many rows of the log mark a task id as done. */
  function RowsFor(log: seq<Row>, id: string): nat {
    if log == [] then 0 else RowsFor(Front(log), id) + if MarkedBy(Last(log)) == Some(id) then 1 else 0
  }

  lemma RowsMore(log: seq<Row>, row: Row, id: string)
    ensures RowsFor(log + [row], id) == RowsFor(log, id) + if MarkedBy(row) == Some(id) then 1 else 0
  {
    assert Front(log + [row]) == log;
  }

  lemma {:induction false} RowsIffRecovered(log: seq<Row>, id: string)
    requires Readable(log)
    ensures RowsFor(log, id) > 0 <==> id in Recovered(log)
  {
    if log != [] { RowsIffRecovered(Front(log), id); }
  }

  /** The log is only ever appended to, and the run adds at most one row for a task id: none if
      the log had one already, so the first label is never replaced or contradicted. */
  predicate FirstLabelStands(tasks: seq<Task>, log: seq<Row>, t: seq<Event>, id: string) {
    var s := After(Load(tasks, log), t);
    && log <= s.log
    && RowsFor(s.log, id) <= Max(RowsFor(log, id), 1)
    && (RowsFor(log, id) > 0 ==> RowsFor(s.log, id) == RowsFor(log, id))
  }

  lemma RecordRows(s: State, sub: Submission, appendOk: bool, id: string)
    requires Readable(s.log) && s.labeled == Recovered(s.log)
    ensures var log := Record(s, sub, appendOk).0.log;
            && s.log <= log
            && (RowsFor(log, id) == RowsFor(s.log, id) || (RowsFor(s.log, id) == 0 && RowsFor(log, id) == 1))
  {
    RowsIffRecovered(s.log, id);
    if FindTask(s.tasks, sub.taskId).Some? {
      var task := FindTask(s.tasks, sub.taskId).value;
      RowMarksItsTask(task, sub);
      RowsMore(s.log, RowFor(task, sub), id);
    }
  }

  lemma {:induction false} OneRowPerTask(tasks: seq<Task>, log: seq<Row>, t: seq<Event>, id: string)
    requires Readable(log)
    ensures FirstLabelStands(tasks, log, t, id)
  {
    if t != [] {
      OneRowPerTask(tasks, log, Front(t), id);
      RestartAgreement(tasks, log, Front(t));
      var s := After(Load(tasks, log), Front(t));
      if Last(t).Submit? { RecordRows(s, Last(t).sub, Last(t).appendOk, id); }
    }
  }

  // ----- A line that is no text -----

  lemma {:induction false} FindTaskIds(tasks: seq<Task>, id: string)
    ensures FindTask(tasks, id).Some? <==> id in Ids(tasks)
    ensures FindTask(tasks, id).Some? ==> FindTask(tasks, id).value.id == id
  {
    if tasks != [] { FindTaskIds(tasks[1..], id); }
  }

  /** With every task of the pool recovered nothing is ever appended. */
  lemma {:induction false} NothingLeft(tasks: seq<Task>, log: seq<Row>, t: seq<Event>)
    requires Ids(tasks) <= Recovered(log)
    ensures After(Load(tasks, log), t) == Load(tasks, log)
  {
    if t != [] {
      NothingLeft(tasks, log, Front(t));
      if Last(t).Submit? { FindTaskIds(tasks, Last(t).sub.taskId); }
    }
  }

  /** Behind a line that is no text a label is forgotten at the next restart. */
  lemma LabelForgotten(tasks: seq<Task>, log: seq<Row>, sub: Submission)
    requires !Readable(log) && sub.taskId in Ids(tasks) && sub.taskId !in Recovered(log)
    ensures !Agrees(tasks, log, [Submit(sub, true)])
    ensures var again := [Submit(sub, true), Restart, Submit(sub, true)];
            !FirstLabelStands(tasks, log, again, sub.taskId)
  {
    FindTaskIds(tasks, sub.taskId);
    var task := FindTask(tasks, sub.taskId).value;
    var row := RowFor(task, sub);
    RowMarksItsTask(task, sub);
    RecoveredMore(log, row);
    RowsMore(log, row, sub.taskId);
    RowsMore(log + [row], row, sub.taskId);
    var start := Load(tasks, log);
    var t1, t2 := [Submit(sub, true)], [Submit(sub, true), Restart];
    var t3 := [Submit(sub, true), Restart, Submit(sub, true)];
    assert Front(t1) == [] && Front(t2) == t1 && Front(t3) == t2;
    assert After(start, []) == start;
    assert After(start, t1).log == log + [row] && sub.taskId in After(start, t1).labeled;
    assert After(start, t2) == Load(tasks, log + [row]);
    assert After(start, t3).log == log + [row] + [row];
  }

  /** The condition under which a restart forgets nothing: every line of the starting log can be
      read, or every task of the pool is recovered from those that come before. */
  predicate RestartSafe(tasks: seq<Task>, log: seq<Row>) {
    Readable(log) || Ids(tasks) <= Recovered(log)
  }

  /** Memory and log agree over every run exactly under that condition. */
  lemma AgreementExact(tasks: seq<Task>, log: seq<Row>)
    ensures RestartSafe(tasks, log) <==> forall t :: Agrees(tasks, log, t)
  {
    if RestartSafe(tasks, log) {
      forall t ensures Agrees(tasks, log, t) {
        if Readable(log) { RestartAgreement(tasks, log, t); } else { NothingLeft(tasks, log, t); }
      }
    } else {
      var id :| id in Ids(tasks) && id !in Recovered(log);
      LabelForgotten(tasks, log, Submission(id, "", 0, []));
    }
  }

  /** And so does the first label stand over every run. */
  lemma OneRowExact(tasks: seq<Task>, log: seq<Row>)
    ensures RestartSafe(tasks, log) <==> forall t, id :: FirstLabelStands(tasks, log, t, id)
  {
    if RestartSafe(tasks, log) {
      forall t, id ensures FirstLabelStands(tasks, log, t, id) {
        if Readable(log) { OneRowPerTask(tasks, log, t, id); } else { NothingLeft(tasks, log, t); }
      }
    } else {
      var id :| id in Ids(tasks) && id !in Recovered(log);
      var sub := Submission(id, "", 0, []);
      LabelForgotten(tasks, log, sub);
      assert !FirstLabelStands(tasks, log, [Submit(sub, true), Restart, Submit(sub, true)], id);
    }
  }

  /** A submission is answered with success exactly when its task is labeled afterwards. */
  lemma RecordAnswer(s: State, sub: Submission, appendOk: bool)
    ensures var (s', r) := Record(s, sub, appendOk);
            && (r.Ok? <==> sub.taskId in s'.labeled)
            && (r.Err? ==> s' == s)
            && (r == Err(UnknownTask) <==> sub.taskId !in s.labeled && FindTask(s.tasks, sub.taskId).None?)
  {
  }

  // ----- Active-learning order -----

  /** Lower is sooner: closest to 0.5 first, unscored as if at distance 1. */
  function Uncertainty(t: Task): real {
    match t.modelScore
    case Some(s) => if s - 0.5 >= 0.0 then s - 0.5 else 0.5 - s
    case None => 1.0
  }

  /** `filter` then `min_by`: the unlabeled task of least uncertainty, the earliest among equals. */
  function NextTask(tasks: seq<Task>, labeled: set<string>): Option<Task> {
    if tasks == [] then None
    else
      var rest := NextTask(tasks[1..], labeled);
      if tasks[0].id in labeled then rest
      else if rest.None? || Uncertainty(tasks[0]) <= Uncertainty(rest.value) then Some(tasks[0])
      else rest
  }

  /** Some unlabeled task is served if there is one, and none of them has its score nearer to one half;
      one with a score less than 1 from it goes before all without. */
  lemma {:induction false} NextIsNearest(tasks: seq<Task>, labeled: set<string>, i: nat)
    requires i < |tasks| && tasks[i].id !in labeled
    ensures var next := NextTask(tasks, labeled);
            && next.Some? && next.value in tasks && next.value.id !in labeled
            && (next.value.modelScore.Some? && tasks[i].modelScore.Some? ==>
                  var a, b := next.value.modelScore.value - 0.5, tasks[i].modelScore.value - 0.5;
                  (a <= b && -a <= b) || (a <= -b && -a <= -b))
            && (tasks[i].modelScore.Some? && -0.5 < tasks[i].modelScore.value < 1.5 ==> next.value.modelScore.Some?)
            && Uncertainty(next.value) <= Uncertainty(tasks[i])
  {
    var next := NextTask(tasks[1..], labeled);
    if i > 0 {
      NextIsNearest(tasks[1..], labeled, i - 1);
    } else if next.Some? {
      NextTaskIsAmong(tasks[1..], labeled);
    }
    assert tasks == [tasks[0]] + tasks[1..];
  }

  lemma {:induction false} NextTaskIsAmong(tasks: seq<Task>, labeled: set<string>)
    ensures var n := NextTask(tasks, labeled);
            n.Some? ==> n.value in tasks && n.value.id !in labeled
  {
    if tasks != [] {
      NextTaskIsAmong(tasks[1..], labeled);
      assert tasks == [tasks[0]] + tasks[1..];
    }
  }

  lemma {:induction false} NextTaskIsUnlabeled(tasks: seq<Task>, labeled: set<string>)
    ensures var n := NextTask(tasks, labeled);
            n.Some? ==> n.value.id !in labeled && FindTask(tasks, n.value.id).Some? && n.value.id in Ids(tasks)
  {
    if tasks != [] { NextTaskIsUnlabeled(tasks[1..], labeled); }
  }

  function Ids(tasks: seq<Task>): set<string> {
    if tasks == [] then {} else {tasks[0].id} + Ids(tasks[1..])
  }

  /** Serve the next task and record its label, until everything is labeled. `answer` is
      whatever the volunteers decide. */
  function Drain(s: State, answer: Task -> Submission): seq<Task>
    requires forall t :: answer(t).taskId == t.id
    decreases |Ids(s.tasks) - s.labeled|
  {
    var next := NextTask(s.tasks, s.labeled);
    if next.None? then []
    else
      var s' := Record(s, answer(next.value), true).0;
      NextTaskIsUnlabeled(s.tasks, s.labeled);
      assert Ids(s.tasks) - s'.labeled < Ids(s.tasks) - s.labeled by {
        assert next.value.id in Ids(s.tasks) - s.labeled;
      }
      SmallerSet(Ids(s.tasks) - s'.labeled, Ids(s.tasks) - s.labeled);
      [next.value] + Drain(s', answer)
  }

  lemma SmallerSet(a: set<string>, b: set<string>)
    requires a < b
    ensures |a| < |b|
  {
    assert b == a + (b - a);
  }

  /** The stable sort by uncertainty: each task goes before the later ones it ties with. */
  function Sort(tasks: seq<Task>): seq<Task> {
    if tasks == [] then [] else Insert(tasks[0], Sort(tasks[1..]))
  }

  function Insert(t: Task, sorted: seq<Task>): seq<Task> {
    if sorted == [] || Uncertainty(t) <= Uncertainty(sorted[0]) then [t] + sorted
    else [sorted[0]] + Insert(t, sorted[1..])
  }

  predicate IsSorted(s: seq<Task>) {
    |s| < 2 || (Uncertainty(s[0]) <= Uncertainty(s[1]) && IsSorted(s[1..]))
  }

  /** The tasks of one uncertainty, in order. */
  function AtUncertainty(s: seq<Task>, u: real): seq<Task> {
    if s == [] then []
    else if Uncertainty(s[0]) == u then [s[0]] + AtUncertainty(s[1..], u)
    else AtUncertainty(s[1..], u)
  }

  lemma {:induction false} InsertSorts(t: Task, s: seq<Task>)
    requires IsSorted(s)
    ensures IsSorted(Insert(t, s)) && Insert(t, s) != []
    ensures Insert(t, s)[0] == if s == [] || Uncertainty(t) <= Uncertainty(s[0]) then t else s[0]
  {
    if s != [] { InsertSorts(t, s[1..]); }
  }

  lemma {:induction false} NoneBelow(s: seq<Task>, u: real)
    requires IsSorted(s) && (s != [] ==> u < Uncertainty(s[0]))
    ensures AtUncertainty(s, u) == []
  {
    if s != [] { NoneBelow(s[1..], u); }
  }

  lemma {:induction false} InsertIsStable(t: Task, s: seq<Task>, u: real)
    requires IsSorted(s)
    ensures AtUncertainty(Insert(t, s), u)
         == if Uncertainty(t) == u then [t] + AtUncertainty(s, u) else AtUncertainty(s, u)
  {
    if s != [] && Uncertainty(t) > Uncertainty(s[0]) {
      InsertIsStable(t, s[1..], u);
    } else {
      assert ([t] + s)[1..] == s;
    }
  }

  /** `Sort` is the stable sort: ordered, and for every uncertainty the tasks at it are the same
      ones in the same order as before. */
  lemma {:induction false} SortIsStable(tasks: seq<Task>, u: real)
    ensures IsSorted(Sort(tasks)) && AtUncertainty(Sort(tasks), u) == AtUncertainty(tasks, u)
  {
    if tasks != [] {
      SortIsStable(tasks[1..], u);
      InsertSorts(tasks[0], Sort(tasks[1..]));
      InsertIsStable(tasks[0], Sort(tasks[1..]), u);
    }
  }

  function FirstNotIn(s: seq<Task>, ids: set<string>): Option<Task> {
    if s == [] then None else if s[0].id !in ids then Some(s[0]) else FirstNotIn(s[1..], ids)
  }

  lemma {:induction false} FirstNotInIsAbove(s: seq<Task>, ids: set<string>)
    requires IsSorted(s) && s != []
    ensures FirstNotIn(s, ids).Some? ==> Uncertainty(s[0]) <= Uncertainty(FirstNotIn(s, ids).value)
  {
    if |s| > 1 { FirstNotInIsAbove(s[1..], ids); }
  }

  lemma {:induction false} InsertFirst(t: Task, s: seq<Task>, ids: set<string>)
    requires IsSorted(s)
    ensures FirstNotIn(Insert(t, s), ids)
         == var rest := FirstNotIn(s, ids);
            if t.id in ids then rest
            else if rest.None? || Uncertainty(t) <= Uncertainty(rest.value) then Some(t) else rest
  {
    if s == [] || Uncertainty(t) <= Uncertainty(s[0]) {
      assert ([t] + s)[1..] == s;
      if s != [] { FirstNotInIsAbove(s, ids); }
    } else {
      InsertFirst(t, s[1..], ids);
      assert ([s[0]] + Insert(t, s[1..]))[1..] == Insert(t, s[1..]);
    }
  }

  /** The next task is the first unlabeled one of the stable sort. */
  lemma {:induction false} NextIsFirstOfSort(tasks: seq<Task>, labeled: set<string>)
    ensures NextTask(tasks, labeled) == FirstNotIn(Sort(tasks), labeled)
  {
    if tasks != [] {
      NextIsFirstOfSort(tasks[1..], labeled);
      SortIsStable(tasks[1..], 0.0);
      InsertFirst(tasks[0], Sort(tasks[1..]), labeled);
    }
  }

  /** The tasks of `s` that are not labeled, keeping only the first of each id. */
  function FirstOfEachId(s: seq<Task>, labeled: set<string>): seq<Task> {
    if s == [] then []
    else if s[0].id in labeled then FirstOfEachId(s[1..], labeled)
    else [s[0]] + FirstOfEachId(s[1..], labeled + {s[0].id})
  }

  lemma {:induction false} FirstOfEachIdHead(s: seq<Task>, labeled: set<string>)
    ensures var first := FirstNotIn(s, labeled);
            FirstOfEachId(s, labeled)
            == if first.None? then [] else [first.value] + FirstOfEachId(s, labeled + {first.value.id})
  {
    if s != [] && s[0].id in labeled { FirstOfEachIdHead(s[1..], labeled); }
  }

  /** Draining the pool serves the unlabeled tasks in exactly the order of a stable sort by
      uncertainty; of tasks sharing an id only the first in that order is served. */
  lemma {:induction false} DrainIsSorted(s: State, answer: Task -> Submission)
    requires forall t :: answer(t).taskId == t.id
    ensures Drain(s, answer) == FirstOfEachId(Sort(s.tasks), s.labeled)
    decreases |Ids(s.tasks) - s.labeled|
  {
    NextIsFirstOfSort(s.tasks, s.labeled);
    FirstOfEachIdHead(Sort(s.tasks), s.labeled);
    var next := NextTask(s.tasks, s.labeled);
    if next.Some? {
      NextTaskIsUnlabeled(s.tasks, s.labeled);
      var s' := Record(s, answer(next.value), true).0;
      assert next.value.id in Ids(s.tasks) - s.labeled;
      SmallerSet(Ids(s.tasks) - s'.labeled, Ids(s.tasks) - s.labeled);
      DrainIsSorted(s', answer);
    }
  }

  predicate DistinctIds(tasks: seq<Task>) {
    tasks == [] || (tasks[0].id !in Ids(tasks[1..]) && DistinctIds(tasks[1..]))
  }

  lemma {:induction false} InsertIds(t: Task, s: seq<Task>)
    ensures Ids(Insert(t, s)) == Ids(s) + {t.id}
    ensures DistinctIds(s) && t.id !in Ids(s) ==> DistinctIds(Insert(t, s))
  {
    if s == [] || Uncertainty(t) <= Uncertainty(s[0]) {
      assert ([t] + s)[1..] == s;
    } else {
      InsertIds(t, s[1..]);
      assert ([s[0]] + Insert(t, s[1..]))[1..] == Insert(t, s[1..]);
    }
  }

  lemma {:induction false} SortIds(tasks: seq<Task>)
    ensures Ids(Sort(tasks)) == Ids(tasks) && (DistinctIds(tasks) ==> DistinctIds(Sort(tasks)))
  {
    if tasks != [] {
      SortIds(tasks[1..]);
      InsertIds(tasks[0], Sort(tasks[1..]));
    }
  }

  lemma {:induction false} DistinctNeedNoFilter(s: seq<Task>, labeled: set<string>)
    requires DistinctIds(s) && Ids(s) !! labeled
    ensures FirstOfEachId(s, labeled) == s
  {
    if s != [] { DistinctNeedNoFilter(s[1..], labeled + {s[0].id}); }
  }

  /** With distinct ids and nothing labeled yet the whole pool is served in sorted order. */
  lemma FreshPoolIsServedSorted(s: State, answer: Task -> Submission)
    requires forall t :: answer(t).taskId == t.id
    requires DistinctIds(s.tasks) && s.labeled == {}
    ensures Drain(s, answer) == Sort(s.tasks)
  {
    DrainIsSorted(s, answer);
    SortIds(s.tasks);
    DistinctNeedNoFilter(Sort(s.tasks), {});
  }

  // ----- Where scored tasks stand against unscored ones -----

  /** No scored task stands behind an unscored one. */
  predicate ScoredBeforeUnscored(s: seq<Task>) {
    forall i, j :: 0 <= i < j < |s| && s[i].modelScore.None? ==> s[j].modelScore.None?
  }

  /** Each unscored task gives way to each scored one: the score is nearer than 1 to the middle, or
      exactly 1 from it and earlier in the pool. */
  predicate UnscoredGiveWay(tasks: seq<Task>) {
    forall i, j :: 0 <= i < |tasks| && 0 <= j < |tasks| && tasks[i].modelScore.None? && tasks[j].modelScore.Some? ==>
      Uncertainty(tasks[j]) < 1.0 || (Uncertainty(tasks[j]) == 1.0 && j < i)
  }

  /** The same, asked of one task against a collection of later ones. */
  predicate GivesWay(t: Task, later: seq<Task>) {
    forall x :: x in later ==>
      && (t.modelScore.None? && x.modelScore.Some? ==> Uncertainty(x) < 1.0)
      && (t.modelScore.Some? && x.modelScore.None? ==> Uncertainty(t) <= 1.0)
  }

  lemma GiveWayStep(tasks: seq<Task>)
    requires tasks != []
    ensures UnscoredGiveWay(tasks) <==> UnscoredGiveWay(tasks[1..]) && GivesWay(tasks[0], tasks[1..])
  {
    var t, rest := tasks[0], tasks[1..];
    if UnscoredGiveWay(tasks) {
      forall x | x in rest
        ensures t.modelScore.None? && x.modelScore.Some? ==> Uncertainty(x) < 1.0
        ensures t.modelScore.Some? && x.modelScore.None? ==> Uncertainty(t) <= 1.0
      {
        var k :| 0 <= k < |rest| && rest[k] == x;
        assert tasks[k + 1] == x;
      }
      forall i, j | 0 <= i < |rest| && 0 <= j < |rest| && rest[i].modelScore.None? && rest[j].modelScore.Some?
        ensures Uncertainty(rest[j]) < 1.0 || (Uncertainty(rest[j]) == 1.0 && j < i)
      {
        assert tasks[i + 1] == rest[i] && tasks[j + 1] == rest[j];
      }
    }
    if UnscoredGiveWay(rest) && GivesWay(t, rest) {
      forall i, j | 0 <= i < |tasks| && 0 <= j < |tasks| && tasks[i].modelScore.None? && tasks[j].modelScore.Some?
        ensures Uncertainty(tasks[j]) < 1.0 || (Uncertainty(tasks[j]) == 1.0 && j < i)
      {
        if i > 0 { assert tasks[i] == rest[i - 1] && tasks[i] in rest; }
        if j > 0 { assert tasks[j] == rest[j - 1] && tasks[j] in rest; }
      }
    }
  }

  lemma ScoredStep(x: Task, s: seq<Task>)
    ensures ScoredBeforeUnscored([x] + s)
       <==> ScoredBeforeUnscored(s) && (x.modelScore.None? ==> forall y :: y in s ==> y.modelScore.None?)
  {
    var all := [x] + s;
    if ScoredBeforeUnscored(all) {
      forall i, j | 0 <= i < j < |s| && s[i].modelScore.None? ensures s[j].modelScore.None? {
        assert all[i + 1] == s[i] && all[j + 1] == s[j];
      }
      forall y | y in s && x.modelScore.None? ensures y.modelScore.None? {
        var k :| 0 <= k < |s| && s[k] == y;
        assert all[0] == x && all[k + 1] == y;
      }
    }
    if ScoredBeforeUnscored(s) && (x.modelScore.None? ==> forall y :: y in s ==> y.modelScore.None?) {
      forall i, j | 0 <= i < j < |all| && all[i].modelScore.None? ensures all[j].modelScore.None? {
        assert all[j] == s[j - 1] && all[j] in s;
        if i > 0 { assert all[i] == s[i - 1]; }
      }
    }
  }

  lemma {:induction false} InsertMembers(t: Task, s: seq<Task>, x: Task)
    ensures x in Insert(t, s) <==> x == t || x in s
  {
    if s != [] && Uncertainty(t) > Uncertainty(s[0]) {
      InsertMembers(t, s[1..], x);
      assert s == [s[0]] + s[1..];
    }
  }

  lemma {:induction false} SortMembers(tasks: seq<Task>, x: Task)
    ensures x in Sort(tasks) <==> x in tasks
  {
    if tasks != [] {
      assert tasks == [tasks[0]] + tasks[1..];
      SortMembers(tasks[1..], x);
      InsertMembers(tasks[0], Sort(tasks[1..]), x);
    }
  }

  lemma {:induction false} AboveHead(s: seq<Task>, x: Task)
    requires IsSorted(s) && x in s
    ensures Uncertainty(s[0]) <= Uncertainty(x)
  {
    if x != s[0] {
      assert s == [s[0]] + s[1..];
      AboveHead(s[1..], x);
    }
  }

  /** Inserting a task keeps the scored ones in front exactly when it gives way. */
  lemma {:induction false} InsertGivesWay(t: Task, s: seq<Task>)
    requires IsSorted(s)
    ensures ScoredBeforeUnscored(Insert(t, s)) <==> ScoredBeforeUnscored(s) && GivesWay(t, s)
  {
    if s == [] || Uncertainty(t) <= Uncertainty(s[0]) {
      ScoredStep(t, s);
      forall x | x in s ensures Uncertainty(t) <= Uncertainty(x) {
        AboveHead(s, x);
      }
    } else {
      var rest := s[1..];
      assert s == [s[0]] + rest;
      InsertGivesWay(t, rest);
      ScoredStep(s[0], rest);
      ScoredStep(s[0], Insert(t, rest));
      assert GivesWay(t, s) <==> GivesWay(t, rest) && GivesWay(t, [s[0]]);
      assert s[0] in [s[0]];
      forall y ensures y in Insert(t, rest) <==> y == t || y in rest {
        InsertMembers(t, rest, y);
      }
      InsertHeadGivesWay(t, s);
    }
  }

  /** The head of the sorted list against a task inserted behind it. */
  lemma InsertHeadGivesWay(t: Task, s: seq<Task>)
    requires s != [] && IsSorted(s) && Uncertainty(t) > Uncertainty(s[0])
    ensures GivesWay(t, [s[0]]) <==> !(s[0].modelScore.None? && t.modelScore.Some?)
  {
    assert s[0] in [s[0]];
  }

  /** Unscored tasks are served last exactly when each gives way to each scored task of the pool. */
  lemma {:induction false} UnscoredComeLast(tasks: seq<Task>)
    ensures ScoredBeforeUnscored(Sort(tasks)) <==> UnscoredGiveWay(tasks)
  {
    if tasks != [] {
      var t, rest := tasks[0], tasks[1..];
      UnscoredComeLast(rest);
      SortIsStable(rest, 0.0);
      InsertGivesWay(t, Sort(rest));
      GiveWayStep(tasks);
      forall x ensures x in Sort(rest) <==> x in rest {
        SortMembers(rest, x);
      }
    }
  }

  /** Every probability is near enough to the middle, whatever the order of the pool. */
  lemma ProbabilitiesComeFirst(tasks: seq<Task>)
    requires forall i :: 0 <= i < |tasks| && tasks[i].modelScore.Some? ==> 0.0 <= tasks[i].modelScore.value <= 1.0
    ensures ScoredBeforeUnscored(Sort(tasks))
  {
    UnscoredComeLast(tasks);
  }

  /** A score outside the unit interval can come after an unscored task. */
  lemma ScoreBoundIsExact(scored: Task, unscored: Task)
    requires scored.modelScore.Some? && unscored.modelScore.None?
    ensures -0.5 < scored.modelScore.value < 1.5 <==> Sort([unscored, scored]) == [scored, unscored]
    ensures -0.5 <= scored.modelScore.value <= 1.5 <==> Sort([scored, unscored]) == [scored, unscored]
  {
    assert [unscored, scored][1..] == [scored] && [scored, unscored][1..] == [unscored];
    assert [scored][1..] == [] && [unscored][1..] == [];
    assert Sort([scored]) == [scored] && Sort([unscored]) == [unscored];
    assert Insert(unscored, []) == [unscored] && Insert(scored, []) == [scored];
    var r, q := Sort([unscored, scored]), Sort([scored, unscored]);
    assert r == if Uncertainty(scored) >= 1.0 then [unscored] + [scored] else [scored] + [unscored];
    assert q == if Uncertainty(scored) <= 1.0 then [scored] + [unscored] else [unscored] + [scored];
    assert r[0] == if Uncertainty(scored) >= 1.0 then unscored else scored;
    assert q[0] == if Uncertainty(scored) <= 1.0 then scored else unscored;
  }

  // ----- Which messages a label is filed under -----

  /** The row a submission adds carries the messages of the task it was given for. */
  predicate FiledRightly(s: State, i: nat, sub: Submission)
    requires i < |s.tasks|
  {
    Record(s, sub, true).0.log == s.log + [RowFor(s.tasks[i], sub)]
  }

  /** That is so exactly when the first task of the pool with this id has the same messages. */
  lemma LabelGoesWithItsMessages(s: State, i: nat, sub: Submission)
    requires i < |s.tasks| && sub.taskId == s.tasks[i].id && sub.taskId !in s.labeled
    ensures FindTask(s.tasks, sub.taskId).Some?
    ensures FiledRightly(s, i, sub) <==> FindTask(s.tasks, sub.taskId).value.messages == s.tasks[i].messages
  {
    var first := FindFirst(s.tasks, i);
    var filed := RowFor(FindTask(s.tasks, sub.taskId).value, sub);
    assert Record(s, sub, true).0.log == s.log + [filed];
    assert (s.log + [filed])[|s.log|] == filed;
    assert (s.log + [RowFor(s.tasks[i], sub)])[|s.log|] == RowFor(s.tasks[i], sub);
  }

  /** `FindTask` finds the first task with the id of task `i`. */
  lemma {:induction false} FindFirst(tasks: seq<Task>, i: nat) returns (first: nat)
    requires i < |tasks|
    ensures first <= i && tasks[first].id == tasks[i].id && FindTask(tasks, tasks[i].id) == Some(tasks[first])
  {
    if tasks[0].id == tasks[i].id {
      first := 0;
    } else {
      first := FindFirst(tasks[1..], i - 1);
      first := first + 1;
    }
  }

  /** Open tasks that share an id share their messages. */
  predicate SharedIdsShareMessages(s: State) {
    forall i, j :: 0 <= i < |s.tasks| && 0 <= j < |s.tasks| && s.tasks[i].id == s.tasks[j].id ==>
      s.tasks[i].id in s.labeled || s.tasks[i].messages == s.tasks[j].messages
  }

  ghost predicate AllFiledRightly(s: State) {
    forall i, sub: Submission :: 0 <= i < |s.tasks| && sub.taskId == s.tasks[i].id && sub.taskId !in s.labeled ==>
      FiledRightly(s, i, sub)
  }

  /** Every label is filed rightly exactly for such a pool; distinct ids are a special case. */
  lemma PoolFilesRightly(s: State)
    ensures AllFiledRightly(s) <==> SharedIdsShareMessages(s)
  {
    if AllFiledRightly(s) {
      forall i, j | 0 <= i < |s.tasks| && 0 <= j < |s.tasks|
        && s.tasks[i].id == s.tasks[j].id && s.tasks[i].id !in s.labeled
        ensures s.tasks[i].messages == s.tasks[j].messages
      {
        var sub := Submission(s.tasks[i].id, "", 0, []);
        assert FiledRightly(s, i, sub) && FiledRightly(s, j, sub);
        LabelGoesWithItsMessages(s, i, sub);
        LabelGoesWithItsMessages(s, j, sub);
      }
    }
    if SharedIdsShareMessages(s) {
      forall i, sub: Submission | 0 <= i < |s.tasks| && sub.taskId == s.tasks[i].id && sub.taskId !in s.labeled
        ensures FiledRightly(s, i, sub)
      {
        LabelGoesWithItsMessages(s, i, sub);
        var first := FindFirst(s.tasks, i);
      }
    }
  }

  /** Where that fails: the label of the task served is filed with the messages of another. */
  lemma SharedIdFilesTheWrongMessages()
    ensures var a, b := Task("t", [], Some(0.9), None), Task("t", [Message("other", "hi")], Some(0.5), None);
            var s := State([a, b], {}, []);
            && NextTask(s.tasks, s.labeled) == Some(b)
            && forall sub: Submission :: sub.taskId == "t" ==> Record(s, sub, true).0.log == [RowFor(a, sub)]
  {
    var a, b := Task("t", [], Some(0.9), None), Task("t", [Message("other", "hi")], Some(0.5), None);
    assert [a, b][1..] == [b] && [b][1..] == [];
    assert NextTask([b], {}) == Some(b);
  }

  // ----- What the rows of a run say -----

  /** The submissions a run takes: for each task of the pool not done at the start, the first whose
      append succeeds. */
  function Taken(tasks: seq<Task>, done: set<string>, t: seq<Event>): seq<Submission> {
    if t == [] then []
    else
      var past, e := Taken(tasks, done, Front(t)), Last(t);
      if && e.Submit? && e.appendOk && e.sub.taskId !in done
         && (forall k :: 0 <= k < |past| ==> past[k].taskId != e.sub.taskId)
         && (exists i :: 0 <= i < |tasks| && tasks[i].id == e.sub.taskId)
      then past + [e.sub] else past
  }

  /** The row carries what was submitted, and the messages of the first task with that id. */
  predicate Files(row: Row, tasks: seq<Task>, sub: Submission) {
    && row.Correction? && row.choice == sub.choice && row.stages == sub.stages && row.labeler == sub.labeler
    && row.caseId == "label_" + sub.taskId && row.source == "labeling_app"
    && exists i ::
         && 0 <= i < |tasks| && tasks[i].id == sub.taskId && tasks[i].messages == row.messages
         && forall k :: 0 <= k < i ==> tasks[k].id != sub.taskId
  }

  lemma {:induction false} FindTaskIsFirst(tasks: seq<Task>, id: string) returns (i: nat)
    ensures i <= |tasks| && forall k :: 0 <= k < i ==> tasks[k].id != id
    ensures i < |tasks| ==> tasks[i].id == id && FindTask(tasks, id) == Some(tasks[i])
    ensures i == |tasks| ==> FindTask(tasks, id).None?
  {
    if tasks == [] || tasks[0].id == id {
      i := 0;
    } else {
      i := FindTaskIsFirst(tasks[1..], id);
      i := i + 1;
    }
  }

  /** One submission adds a row exactly if it is to be taken, and that row files it. */
  lemma RecordFiles(s: State, sub: Submission, appendOk: bool)
    ensures var log := Record(s, sub, appendOk).0.log;
            if appendOk && sub.taskId !in s.labeled && (exists i :: 0 <= i < |s.tasks| && s.tasks[i].id == sub.taskId)
            then |log| == |s.log| + 1 && log[..|s.log|] == s.log && Files(log[|s.log|], s.tasks, sub)
            else log == s.log
  {
    var i := FindTaskIsFirst(s.tasks, sub.taskId);
    assert i < |s.tasks| ==> Files(RowFor(s.tasks[i], sub), s.tasks, sub);
  }

  /** What is done: what was at the start, and what was taken since. */
  ghost predicate LabeledAre(labeled: set<string>, done: set<string>, taken: seq<Submission>) {
    forall id :: id in labeled <==> id in done || exists k :: 0 <= k < |taken| && taken[k].taskId == id
  }

  lemma {:induction false} LabeledAreTaken(tasks: seq<Task>, log: seq<Row>, t: seq<Event>)
    requires Readable(log)
    ensures LabeledAre(After(Load(tasks, log), t).labeled, Recovered(log), Taken(tasks, Recovered(log), t))
  {
    if t != [] {
      LabeledAreTaken(tasks, log, Front(t));
      RestartAgreement(tasks, log, Front(t));
      var s, past := After(Load(tasks, log), Front(t)), Taken(tasks, Recovered(log), Front(t));
      if Last(t).Submit? {
        var sub := Last(t).sub;
        var i := FindTaskIsFirst(tasks, sub.taskId);
        LabeledMore(s.labeled, Recovered(log), past, sub);
        assert sub.taskId in s.labeled
          <==> sub.taskId in Recovered(log) || exists k :: 0 <= k < |past| && past[k].taskId == sub.taskId;
      }
    }
  }

  lemma LabeledMore(labeled: set<string>, done: set<string>, taken: seq<Submission>, sub: Submission)
    requires LabeledAre(labeled, done, taken)
    ensures LabeledAre(labeled + {sub.taskId}, done, taken + [sub])
  {
    var more := taken + [sub];
    forall id
      ensures id in labeled + {sub.taskId} <==> id in done || exists k :: 0 <= k < |more| && more[k].taskId == id
    {
      assert more[|taken|] == sub;
      if k :| 0 <= k < |taken| && taken[k].taskId == id { assert more[k].taskId == id; }
      if k :| 0 <= k < |more| && more[k].taskId == id { assert k < |taken| ==> taken[k] == more[k]; }
    }
  }

  /** Behind the first `from` rows there is one row for each submission taken, which files it. */
  ghost predicate FiledBehind(rows: seq<Row>, from: nat, tasks: seq<Task>, taken: seq<Submission>) {
    && |rows| == from + |taken|
    && forall k :: 0 <= k < |taken| ==> Files(rows[from + k], tasks, taken[k])
  }

  lemma FiledMore(rows: seq<Row>, row: Row, from: nat, tasks: seq<Task>, taken: seq<Submission>, sub: Submission)
    requires FiledBehind(rows, from, tasks, taken) && Files(row, tasks, sub)
    ensures FiledBehind(rows + [row], from, tasks, taken + [sub])
  {
  }

  /** Over a log of readable lines a run adds exactly one row for each submission it takes, in order,
      and each row files its submission. */
  lemma {:induction false} LogFilesTaken(tasks: seq<Task>, log: seq<Row>, t: seq<Event>)
    requires Readable(log)
    ensures var after := After(Load(tasks, log), t).log;
            log <= after && FiledBehind(after, |log|, tasks, Taken(tasks, Recovered(log), t))
  {
    if t != [] {
      LogFilesTaken(tasks, log, Front(t));
      LabeledAreTaken(tasks, log, Front(t));
      RestartAgreement(tasks, log, Front(t));
      var s, past := After(Load(tasks, log), Front(t)), Taken(tasks, Recovered(log), Front(t));
      if Last(t).Submit? {
        RecordFiles(s, Last(t).sub, Last(t).appendOk);
        var after := After(Load(tasks, log), t).log;
        if |after| > |s.log| {
          assert after == s.log + [after[|s.log|]];
          FiledMore(s.log, after[|s.log|], |log|, tasks, past, Last(t).sub);
        }
      }
    }
  }

  // ----- The store object -----

  /** What stands behind a line that is no text is not looked at. */
  lemma {:induction false} ScanStops(log: seq<Row>, i: nat)
    requires i < |log| && log[i].NotText?
    ensures !Readable(log) && Recovered(log) == Recovered(log[..i])
  {
    if i < |log| - 1 {
      ScanStops(Front(log), i);
      assert Front(log)[..i] == log[..i];
    }
  }

  class Store {
    var tasks: seq<Task>
    var labeled: set<string>
    var log: seq<Row>  // the corrections file

    ghost function Current(): State
      reads this
    {
      State(tasks, labeled, log)
    }

    /** Loads the pool, and what is done already from the log. */
    constructor Open(tasks: seq<Task>, log: seq<Row>)
      ensures Current() == Load(tasks, log)
    {
      this.tasks := tasks;
      this.log := log;
      var done := AlreadyLabeled(log);
      this.labeled := done;
    }

    static method AlreadyLabeled(log: seq<Row>) returns (done: set<string>)
      ensures done == Recovered(log)
    {
      done := {};
      for i := 0 to |log|
        invariant done == Recovered(log[..i]) && Readable(log[..i])
      {
        assert Front(log[..i + 1]) == log[..i];
        if log[i].NotText? {
          ScanStops(log, i);
          return;
        }
        var c := CaseIdOf(log[i]);
        if c.Some? && PREFIX <= c.value {
          done := done + {c.value[|PREFIX|..]};
        }
      }
      assert log[..|log|] == log;
    }

    /** Records a label once; a repeat changes nothing, a failed append leaves the task open. */
    method Submit(sub: Submission, appendOk: bool) returns (r: Result<(), RecordError>)
      modifies this`labeled, this`log
      ensures (Current(), r) == Record(old(Current()), sub, appendOk)
      ensures var known := exists i :: 0 <= i < |tasks| && tasks[i].id == sub.taskId;
              r == if sub.taskId in old(labeled) then Ok(())
                   else if !known then Err(UnknownTask)
                   else if !appendOk then Err(AppendFailed) else Ok(())
      ensures sub.taskId in old(labeled) || r.Err? ==> log == old(log) && labeled == old(labeled)
      ensures sub.taskId !in old(labeled) && r.Ok? ==>
                && labeled == old(labeled) + {sub.taskId}
                && |log| == |old(log)| + 1 && log[..|old(log)|] == old(log)
                && Files(log[|old(log)|], tasks, sub)
    {
      RecordFiles(Current(), sub, appendOk);
      ghost var i := FindTaskIsFirst(tasks, sub.taskId);
      if sub.taskId in labeled {
        return Ok(());
      }
      var task := FindTask(tasks, sub.taskId);
      if task.None? {
        return Err(UnknownTask);
      }
      if !appendOk {
        return Err(AppendFailed);
      }
      log := log + [RowFor(task.value, sub)];
      labeled := labeled + {sub.taskId};
      r := Ok(());
    }
  }
}
