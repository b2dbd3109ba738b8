/**
 * One task of a todo list (`TodoTask`): identified by the transaction that
 * created it, with text and status each chosen last-write-wins by strictly
 * greater transaction id, and the set of every transaction id applied to it.
 */
module TodoTasks {
  import opened Wrappers
  import opened Collections
  import opened Packing
  import opened Records
  import opened Sorting

  /** The state of a task, and what `TodoTask.Pack` writes. */
  datatype TaskData = TaskData(
    First: TaskStorage,                      // the creation record
    CurrentTask: TaskStorage,                // the record whose text is shown
    CurrentStatus: Option<StatusStorage>,    // None: never given a status
    History: set<int>)                       // every applied transaction id
  {
    function Id(): int { First.TransactionId }

    function GroupId(): int { First.GroupId }

    function Text(): string { CurrentTask.Record.Text }

    /** The status shown: `Open` until a status record arrives, then the current record's status. */
    function Status(): (s: TaskStatusType)
      ensures CurrentStatus.None? ==> s == Open
      ensures CurrentStatus.Some? ==> s == CurrentStatus.value.Record.Status
    {
      if CurrentStatus.None? then Open else CurrentStatus.value.Record.Status
    }

    /** The display timestamp: the later of the text's and the status's (0 without a status). */
    function Timestamp(): (t: int)
      ensures t >= CurrentTask.Timestamp
      ensures t >= (if CurrentStatus.Some? then CurrentStatus.value.Timestamp else 0)
      ensures t == CurrentTask.Timestamp || t == (if CurrentStatus.Some? then CurrentStatus.value.Timestamp else 0)
    {
      Max(if CurrentStatus.Some? then CurrentStatus.value.Timestamp else 0, CurrentTask.Timestamp)
    }

    /** The history records every current record, and the shown text is never older than the creation. */
    ghost predicate Valid() {
      && Id() in History
      && CurrentTask.TransactionId in History
      && Id() <= CurrentTask.TransactionId
      && (CurrentStatus.Some? ==> CurrentStatus.value.TransactionId in History)
    }
  }

  /** A task as its creation record makes it. */
  function NewTask(r: TaskStorage): (d: TaskData)
    ensures d.Valid()
    ensures d.Id() == r.TransactionId && d.GroupId() == r.GroupId
    ensures d.History == {r.TransactionId}
    ensures d.CurrentTask == r && d.Text() == r.Record.Text
    ensures d.CurrentStatus.None? && d.Status() == Open
  {
    TaskData(r, r, None, {r.TransactionId})
  }

  /** `Update(TodoRecordStorage<TodoTaskRecord>)`. */
  function ApplyTask(d: TaskData, r: TaskStorage): TaskData {
    d.(History := d.History + {r.TransactionId},
       CurrentTask := if r.TransactionId > d.CurrentTask.TransactionId then r else d.CurrentTask)
  }

  /** `Update(TodoRecordStorage<TodoTaskStatusRecord>)`. */
  function ApplyStatus(d: TaskData, r: StatusStorage): TaskData {
    d.(History := d.History + {r.TransactionId},
       CurrentStatus :=
         if d.CurrentStatus.None? || r.TransactionId > d.CurrentStatus.value.TransactionId then Some(r)
         else d.CurrentStatus)
  }

  /** Neither update touches the identity, shrinks the history or changes the other kind's record. */
  lemma UpdatesAreIndependent(d: TaskData, r: TaskStorage, s: StatusStorage)
    ensures ApplyTask(d, r).First == d.First && ApplyStatus(d, s).First == d.First
    ensures ApplyTask(d, r).History == d.History + {r.TransactionId}
    ensures ApplyStatus(d, s).History == d.History + {s.TransactionId}
    ensures ApplyTask(d, r).CurrentStatus == d.CurrentStatus
    ensures ApplyStatus(d, s).CurrentTask == d.CurrentTask
    ensures d.Valid() ==> ApplyTask(d, r).Valid() && ApplyStatus(d, s).Valid()
  {
  }

  /** Applying the same record twice leaves the task as applying it once. */
  lemma UpdatesAreIdempotent(d: TaskData, r: TaskStorage, s: StatusStorage)
    ensures ApplyTask(ApplyTask(d, r), r) == ApplyTask(d, r)
    ensures ApplyStatus(ApplyStatus(d, s), s) == ApplyStatus(d, s)
  {
  }

  /**
   * What a task shows after one update: a task record's text only when its id
   * is strictly greater than the shown one's; a status record's status when
   * there was none yet or its id is strictly greater; the other one unchanged.
   */
  lemma ShownAfterUpdate(d: TaskData, r: TaskStorage, s: StatusStorage)
    ensures ApplyTask(d, r).Text() == (if r.TransactionId > d.CurrentTask.TransactionId then r.Record.Text else d.Text())
    ensures ApplyTask(d, r).Status() == d.Status()
    ensures ApplyStatus(d, s).Status()
         == (if d.CurrentStatus.None? || s.TransactionId > d.CurrentStatus.value.TransactionId then s.Record.Status
             else d.Status())
    ensures ApplyStatus(d, s).Text() == d.Text()
  {
  }

  /** Task records applied in arrival order. */
  function ApplyTasks(d: TaskData, us: seq<TaskStorage>): TaskData
    decreases |us|
  {
    if us == [] then d else ApplyTasks(ApplyTask(d, us[0]), us[1..])
  }

  /** Status records applied in arrival order. */
  function ApplyStatuses(d: TaskData, ss: seq<StatusStorage>): TaskData
    decreases |ss|
  {
    if ss == [] then d else ApplyStatuses(ApplyStatus(d, ss[0]), ss[1..])
  }

  ghost function Ids(rs: seq<RecordStorage>): set<int> {
    set r | r in rs :: r.TransactionId
  }

  /**
   * After any run of task updates the shown record is the one with the
   * greatest transaction id among the one shown before and those applied.
   */
  lemma {:induction false} LatestTaskWins(d: TaskData, us: seq<TaskStorage>)
    ensures var e := ApplyTasks(d, us);
      && e.First == d.First
      && e.CurrentStatus == d.CurrentStatus
      && e.History == d.History + Ids(us)
      && (e.CurrentTask == d.CurrentTask || e.CurrentTask in us)
      && e.CurrentTask.TransactionId >= d.CurrentTask.TransactionId
      && (forall u :: u in us ==> e.CurrentTask.TransactionId >= u.TransactionId)
    decreases |us|
  {
    if us != [] {
      var d' := ApplyTask(d, us[0]);
      LatestTaskWins(d', us[1..]);
      assert us == [us[0]] + us[1..];
      assert Ids(us) == {us[0].TransactionId} + Ids(us[1..]);
      forall u | u in us ensures ApplyTasks(d, us).CurrentTask.TransactionId >= u.TransactionId {
        if u != us[0] { assert u in us[1..]; }
      }
    }
  }

  /**
   * After any non-empty run of status updates the task has a status, and it
   * is the one with the greatest transaction id among the previous one and
   * those applied.
   */
  lemma {:induction false} LatestStatusWins(d: TaskData, ss: seq<StatusStorage>)
    ensures var e := ApplyStatuses(d, ss);
      && e.First == d.First
      && e.CurrentTask == d.CurrentTask
      && e.History == d.History + Ids(ss)
      && (e.CurrentStatus == d.CurrentStatus || (e.CurrentStatus.Some? && e.CurrentStatus.value in ss))
      && (ss != [] ==> e.CurrentStatus.Some?)
      && (d.CurrentStatus.Some? ==>
            e.CurrentStatus.Some? && e.CurrentStatus.value.TransactionId >= d.CurrentStatus.value.TransactionId)
      && (forall s :: s in ss ==> e.CurrentStatus.Some? && e.CurrentStatus.value.TransactionId >= s.TransactionId)
    decreases |ss|
  {
    if ss != [] {
      var d' := ApplyStatus(d, ss[0]);
      LatestStatusWins(d', ss[1..]);
      assert ss == [ss[0]] + ss[1..];
      assert Ids(ss) == {ss[0].TransactionId} + Ids(ss[1..]);
      var e := ApplyStatuses(d, ss);
      forall s | s in ss ensures e.CurrentStatus.Some? && e.CurrentStatus.value.TransactionId >= s.TransactionId {
        if s != ss[0] { assert s in ss[1..]; }
      }
    }
  }

  /** No two distinct records share a transaction id. */
  ghost predicate UniqueIds(rs: seq<RecordStorage>) {
    forall a, b :: a in rs && b in rs && a.TransactionId == b.TransactionId ==> a == b
  }

  /**
   * Last-write-wins determinism: when transaction ids are unique, the order in
   * which the same task records arrive does not change the resulting task.
   */
  lemma TaskOrderIrrelevant(d: TaskData, us: seq<TaskStorage>, vs: seq<TaskStorage>)
    requires multiset(us) == multiset(vs)
    requires UniqueIds([d.CurrentTask] + us)
    ensures ApplyTasks(d, us) == ApplyTasks(d, vs)
  {
    LatestTaskWins(d, us);
    LatestTaskWins(d, vs);
    var eu, ev := ApplyTasks(d, us), ApplyTasks(d, vs);
    assert forall u :: u in us <==> u in vs by {
      forall u ensures u in us <==> u in vs {
        assert u in us <==> u in multiset(us);
        assert u in vs <==> u in multiset(vs);
      }
    }
    assert Ids(us) == Ids(vs);
    var cands := [d.CurrentTask] + us;
    assert eu.CurrentTask in cands && ev.CurrentTask in cands;
    assert eu.CurrentTask.TransactionId == ev.CurrentTask.TransactionId;
  }

  /** The same for status records. */
  lemma StatusOrderIrrelevant(d: TaskData, ss: seq<StatusStorage>, ts: seq<StatusStorage>)
    requires multiset(ss) == multiset(ts)
    requires UniqueIds(ss) && (d.CurrentStatus.Some? ==> UniqueIds([d.CurrentStatus.value] + ss))
    ensures ApplyStatuses(d, ss) == ApplyStatuses(d, ts)
  {
    LatestStatusWins(d, ss);
    LatestStatusWins(d, ts);
    SameElements(ss, ts);
    assert Ids(ss) == Ids(ts);
    SameLatestStatus(d, ss, ts);
  }

  /** Both orders end with the same status record: the unique one with the greatest id. */
  lemma SameLatestStatus(d: TaskData, ss: seq<StatusStorage>, ts: seq<StatusStorage>)
    requires multiset(ss) == multiset(ts)
    requires UniqueIds(ss) && (d.CurrentStatus.Some? ==> UniqueIds([d.CurrentStatus.value] + ss))
    ensures ApplyStatuses(d, ss).CurrentStatus == ApplyStatuses(d, ts).CurrentStatus
  {
    if ss == [] {
      assert ts == [] by { assert |ts| == |multiset(ts)| == |multiset(ss)| == 0; }
    } else {
      LatestStatusWins(d, ss);
      LatestStatusWins(d, ts);
      SameElements(ss, ts);
      var a, b := ApplyStatuses(d, ss).CurrentStatus.value, ApplyStatuses(d, ts).CurrentStatus.value;
      assert a.TransactionId == b.TransactionId;
      if d.CurrentStatus.Some? {
        var cands := [d.CurrentStatus.value] + ss;
        assert a in cands && b in cands;
      } else {
        assert a in ss && b in ss;
      }
    }
  }

  // ---- pack / unpack ----------------------------------------------------------

  /** Creation record, current record, optional status record, history. */
  ghost function EncodeTask(d: TaskData): seq<Token> {
    EncodeStorage(d.First) + EncodeStorage(d.CurrentTask)
      + EncodeOptional(d.CurrentStatus, EncodeStatusStorage)
      + EncodeSet(d.History)
  }

  /** `new TodoTask(unpacker)`; `None` where the unpacker would throw. */
  function DecodeTask(ts: seq<Token>): Option<(TaskData, seq<Token>)> {
    match DecodeTaskStorage(ts)
    case None => None
    case Some((first, ts1)) =>
      match DecodeTaskStorage(ts1)
      case None => None
      case Some((current, ts2)) =>
        match DecodeOptional(ts2, DecodeStatusStorage)
        case None => None
        case Some((status, ts3)) =>
          match DecodeSet(ts3)
          case None => None
          case Some((history, rest)) => Some((TaskData(first, current, status, history), rest))
  }

  /** Unpacking a packed task gives back the same task. */
  lemma TaskRoundTrip(d: TaskData, rest: seq<Token>)
    ensures DecodeTask(EncodeTask(d) + rest) == Some((d, rest))
  {
    var hs := EncodeSet(d.History) + rest;
    var st := EncodeOptional(d.CurrentStatus, EncodeStatusStorage);
    var ts2 := st + hs;
    var ts1 := EncodeStorage(d.CurrentTask) + ts2;
    var ts := EncodeStorage(d.First) + ts1;
    assert EncodeTask(d) + rest == ts;
    TypedStorageRoundTrip(d.First, ts1);
    assert DecodeTaskStorage(ts) == Some((d.First, ts1));
    TypedStorageRoundTrip(d.CurrentTask, ts2);
    assert DecodeTaskStorage(ts1) == Some((d.CurrentTask, ts2));
    if d.CurrentStatus.Some? {
      StatusRoundTrips(d.CurrentStatus.value);
    }
    OptionalRoundTrip(d.CurrentStatus, EncodeStatusStorage, DecodeStatusStorage, hs);
    SetRoundTrip(d.History, rest);
  }

  /** `new List<long>(set)`: the set's elements, each once, in some order. */
  method ListOfSet(s: set<int>) returns (copy: seq<int>)
    ensures NoDup(copy)
    ensures forall x :: x in copy <==> x in s
  {
    copy := [];
    var rest := s;
    while rest != {}
      invariant rest <= s
      invariant NoDup(copy)
      invariant forall x :: x in copy <==> x in s && x !in rest
      decreases |rest|
    {
      HasElement(rest);
      var x :| x in rest;
      copy := copy + [x];
      rest := rest - {x};
    }
  }

  /** The task object; its abstract value is `Snapshot()`. */
  class TodoTask {
    const First: TaskStorage
    var CurrentTask: TaskStorage
    var CurrentStatus: Option<StatusStorage>
    var History: set<int>

    function Id(): int { First.TransactionId }

    function Snapshot(): TaskData
      reads this
    {
      TaskData(First, CurrentTask, CurrentStatus, History)
    }

    function Status(): TaskStatusType reads this { Snapshot().Status() }

    function Text(): string reads this { Snapshot().Text() }

    function Timestamp(): int reads this { Snapshot().Timestamp() }

    constructor (r: TaskStorage)
      ensures Snapshot() == NewTask(r)
    {
      First := r;
      CurrentTask := r;
      CurrentStatus := None;
      History := {r.TransactionId};
    }

    /** The unpacking constructor, from the unpacked value. */
    constructor FromData(d: TaskData)
      ensures Snapshot() == d
    {
      First := d.First;
      CurrentTask := d.CurrentTask;
      CurrentStatus := d.CurrentStatus;
      History := d.History;
    }

    method UpdateTask(r: TaskStorage)
      modifies this
      ensures Snapshot() == ApplyTask(old(Snapshot()), r)
    {
      History := History + {r.TransactionId};
      if r.TransactionId > CurrentTask.TransactionId {
        CurrentTask := r;
      }
    }

    method UpdateStatus(r: StatusStorage)
      modifies this
      ensures Snapshot() == ApplyStatus(old(Snapshot()), r)
    {
      History := History + {r.TransactionId};
      if CurrentStatus.None? {
        CurrentStatus := Some(r);
      } else if r.TransactionId > CurrentStatus.value.TransactionId {
        CurrentStatus := Some(r);
      }
    }

    /** Every applied transaction id, once each, newest first. */
    method GetAllTransactionIds() returns (ids: seq<int>)
      ensures forall x :: x in ids <==> x in History
      ensures forall i, j :: 0 <= i < j < |ids| ==> ids[i] > ids[j]
    {
      var copy := ListOfSet(History);
      ids := SortBy(copy, (x: int) => x, true);
      NoDupPermutation(copy, ids);
      forall x ensures x in ids <==> x in History {
        assert x in ids <==> x in multiset(ids);
        assert x in copy <==> x in multiset(copy);
      }
      forall i, j | 0 <= i < j < |ids| ensures ids[i] > ids[j] {
        assert InOrder(ids[i], ids[j], true);
      }
    }

    ghost function Pack(): seq<Token>
      reads this
    {
      EncodeTask(Snapshot())
    }
  }
}
