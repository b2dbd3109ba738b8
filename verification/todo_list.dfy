/**
 * A todo list (`TodoList`): the per-group aggregate that replays the group's
 * transactions, in ascending id order, into a list name and a map of tasks,
 * keeping a replay cursor, a history of applied transaction ids and the
 * secret keys that failed to decrypt a record.
 */
module TodoLists {
  import opened Wrappers
  import opened Collections
  import opened Packing
  import opened Records
  import opened Sorting
  import opened TodoTasks

  /** `TodoListSortMethod`. */
  datatype SortMethod = Ignored | ByTransactionId | ByTransactionIdDesc | ByTimestamp | ByTimestampDesc

  /** `QueryTodoResult` as published at the end of a download cycle. */
  datatype QueryResult = LiveData | DownloadError

  /** The state of a list; `MissingSecretKeys` lives in memory only and is not packed. */
  datatype ListData = ListData(
    ListId: int,
    LastProcessedTransactionId: int,
    LastUsedSecretKeyInfo: Option<SecretKeyInfo>,
    MissingSecretKeys: map<nat, SecretKeyInfo>,
    Items: map<int, TaskData>,
    History: set<int>,
    CurrentListName: Option<NameStorage>)
  {
    /** The list's name: none until a name record arrives, then the current record's name. */
    function Name(): (n: Option<string>)
      ensures n.Some? <==> CurrentListName.Some?
      ensures n.Some? ==> n.value == CurrentListName.value.Record.Name
    {
      if CurrentListName.None? then None else Some(CurrentListName.value.Record.Name)
    }

    /** Every task is stored under its own id. */
    ghost predicate WellKeyed() {
      forall k :: k in Items ==> Items[k].Id() == k
    }
  }

  /** `new TodoList(listId, transactionId, …)`. */
  function EmptyList(listId: int, transactionId: int): (d: ListData)
    ensures d.ListId == listId && d.LastProcessedTransactionId == transactionId
    ensures d.History == (if transactionId == InvalidTransactionId then {} else {transactionId})
    ensures d.Items == map[] && d.MissingSecretKeys == map[]
    ensures d.LastUsedSecretKeyInfo.None? && d.CurrentListName.None? && d.WellKeyed()
  {
    ListData(listId, transactionId, None, map[], map[],
             if transactionId != InvalidTransactionId then {transactionId} else {}, None)
  }

  /** `IsLastUsedSecretKey`, given the submit account's default key info (`None` for null). */
  function IsLastUsedKey(d: ListData, defaultKey: Option<SecretKeyInfo>): (r: bool)
    ensures d.LastUsedSecretKeyInfo.None? ==> r
    ensures d.LastUsedSecretKeyInfo.Some? && defaultKey.None? ==> !r
    ensures d.LastUsedSecretKeyInfo.Some? && defaultKey.Some? ==>
              (r <==> defaultKey.value.SecretId == d.LastUsedSecretKeyInfo.value.SecretId)
  {
    if d.LastUsedSecretKeyInfo.None? then true
    else defaultKey.Some? && defaultKey.value.SecretId == d.LastUsedSecretKeyInfo.value.SecretId
  }

  /** `Process(storage)`: route one decoded record by kind. */
  function ProcessRecord(d: ListData, s: RecordStorage): ListData {
    var d1 := d.(LastProcessedTransactionId := Max(s.TransactionId, d.LastProcessedTransactionId),
                 History := d.History + {s.TransactionId});
    if s.Record.ListName? then
      d1.(CurrentListName :=
            if d.CurrentListName.None? || s.TransactionId > d.CurrentListName.value.TransactionId then Some(s)
            else d.CurrentListName)
    else if s.Record.Task? then
      if s.TargetedTransactionId in d.Items then
        d1.(Items := d.Items[s.TargetedTransactionId := ApplyTask(d.Items[s.TargetedTransactionId], s)])
      else
        d1.(Items := d.Items[s.TransactionId := NewTask(s)])
    else
      if s.TargetedTransactionId in d.Items then
        d1.(Items := d.Items[s.TargetedTransactionId := ApplyStatus(d.Items[s.TargetedTransactionId], s)])
      else
        d1
  }

  // ---- decoding one transaction ---------------------------------------------

  /**
   * What decoding a transaction's payload yields: `Malformed` where the source
   * throws (and `ProcessTransaction` swallows the exception), `NoRecord` where
   * it yields null, or the decoded record.
   */
  datatype Decoding = Malformed | NoRecord | Decoded(Storage: RecordStorage)

  /** The two encrypted record kinds `GetDecryptedRecord<T>` is used with. */
  datatype EncryptedKind = TaskText | ListNameText

  /** The text of the first candidate key, in order, that decrypts the record. */
  function FirstDecryption(keys: seq<SecretKey>, e: EncryptedRecord, decrypt: (EncryptedRecord, SecretKey) -> Option<string>): (r: Option<string>)
    ensures r.None? <==> forall i :: 0 <= i < |keys| ==> decrypt(e, keys[i]).None?
    ensures r.Some? ==> exists i :: 0 <= i < |keys| && decrypt(e, keys[i]) == r
                                 && forall j :: 0 <= j < i ==> decrypt(e, keys[j]).None?
    decreases |keys|
  {
    if keys == [] then None
    else if decrypt(e, keys[0]).Some? then decrypt(e, keys[0])
    else
      var r := FirstDecryption(keys[1..], e, decrypt);
      assert forall i :: 0 < i < |keys| ==> keys[i] == keys[1..][i - 1];
      r
  }

  /** `GetDecryptedRecord<T>`: the new list state and the decoded record. */
  function DecryptSpec(d: ListData, env: Env, tx: Transaction, target: int, groupId: int,
                       payload: seq<bv8>, kind: EncryptedKind): (ListData, Decoding)
  {
    match env.ParseEnvelope(payload)
    case None => (d, Malformed)
    case Some(e) =>
      match FirstDecryption(env.SecretKeys(d.ListId, e.KeyInfo.SecretId), e, env.Decrypt)
      case Some(text) =>
        var record := if kind == TaskText then Task(text) else ListName(text);
        (d.(LastUsedSecretKeyInfo := Some(e.KeyInfo)),
         Decoded(RecordStorage(record, tx.TransactionId, tx.AccountId, tx.Timestamp, target, groupId)))
      case None =>
        var id := e.KeyInfo.SecretId;
        (d.(MissingSecretKeys := if id in d.MissingSecretKeys then d.MissingSecretKeys
                                 else d.MissingSecretKeys[id := e.KeyInfo]),
         NoRecord)
  }

  /** The body of `ProcessTransaction`'s `using` block, before the cache write. */
  function ReadRecord(d: ListData, env: Env, tx: Transaction, g: GroupFeature, payload: seq<bv8>): (ListData, Decoding) {
    if tx.Targets.Some? && |tx.Targets.value| == 0 then (d, Malformed)
    else
      var target := if tx.Targets.Some? then tx.Targets.value[0] else InvalidTransactionId;
      if g.GroupIndex == TodoTaskStatusIndex then
        match env.DecodeStatus(payload)
        case None => (d, Malformed)
        case Some(status) =>
          (d, Decoded(RecordStorage(TaskStatus(status), tx.TransactionId, tx.AccountId, tx.Timestamp, target, g.GroupId)))
      else if g.GroupIndex == TodoTaskIndex then DecryptSpec(d, env, tx, target, g.GroupId, payload, TaskText)
      else if g.GroupIndex == TodoListNameIndex then DecryptSpec(d, env, tx, target, g.GroupId, payload, ListNameText)
      else (d, NoRecord)
  }

  /**
   * `ProcessTransaction`: the list state and the decrypted-record cache
   * (transaction id to storage) after one downloaded transaction.
   */
  function ProcessTransactionSpec(d: ListData, cache: map<int, RecordStorage>, env: Env, tx: Transaction)
    : (ListData, map<int, RecordStorage>)
  {
    if tx.Data.None? || tx.Group.None? then (d, cache)
    else
      var (d1, dec) :=
        if tx.TransactionId in cache then (d, Decoded(cache[tx.TransactionId]))
        else ReadRecord(d, env, tx, tx.Group.value, tx.Data.value);
      if dec.Malformed? then (d, cache)
      else
        var cache1 := if dec.Decoded? && tx.TransactionId !in cache then cache[tx.TransactionId := dec.Storage] else cache;
        if dec.Decoded? && |d1.MissingSecretKeys| == 0 then (ProcessRecord(d1, dec.Storage), cache1)
        else (d1, cache1)
  }

  /** The transactions of a download applied one after the other. */
  function ProcessAll(d: ListData, cache: map<int, RecordStorage>, env: Env, txs: seq<Transaction>)
    : (ListData, map<int, RecordStorage>)
    decreases |txs|
  {
    if txs == [] then (d, cache)
    else
      var (d1, c1) := ProcessAll(d, cache, env, txs[..|txs| - 1]);
      ProcessTransactionSpec(d1, c1, env, txs[|txs| - 1])
  }

  /** The missing secret ids for which the key registry now holds no key. */
  function Prune(d: ListData, env: Env): ListData {
    d.(MissingSecretKeys := map k | k in d.MissingSecretKeys && |env.SecretKeys(d.ListId, k)| == 0 :: d.MissingSecretKeys[k])
  }

  /** The id the download of a list starts from. */
  function DownloadStart(d: ListData): int {
    Max(d.LastProcessedTransactionId, FirstTransactionId)
  }

  function TransactionIdOf(t: Transaction): int { t.TransactionId }

  /**
   * `DownloadTransactions`, with `fetch(listId, minimalTransactionId)` standing
   * for the group transaction download (`None` when it fails).
   */
  function DownloadSpec(d: ListData, cache: map<int, RecordStorage>, env: Env,
                        fetch: (int, int) -> Option<seq<Transaction>>)
    : (ListData, map<int, RecordStorage>, QueryResult)
  {
    var d1 := Prune(d, env);
    match fetch(d.ListId, DownloadStart(d))
    case None => (d1, cache, DownloadError)
    case Some(txs) =>
      var (d2, c2) := ProcessAll(d1, cache, env, SortBy(txs, TransactionIdOf, false));
      (d2, c2, LiveData)
  }

  /** The display timestamp recorded for a task id (0 for an unknown id). */
  function StampOf(stamps: map<int, int>, k: int): int {
    if k in stamps then stamps[k] else 0
  }

  /** The ids are in the order the sort method asks for, by id or by their timestamps in `stamps`. */
  ghost predicate IdsSortedAs(ids: seq<int>, stamps: map<int, int>, m: SortMethod) {
    && (m == ByTransactionId ==> forall i, j :: 0 <= i < j < |ids| ==> ids[i] <= ids[j])
    && (m == ByTransactionIdDesc ==> forall i, j :: 0 <= i < j < |ids| ==> ids[i] >= ids[j])
    && (m == ByTimestamp ==> forall i, j :: 0 <= i < j < |ids| ==> StampOf(stamps, ids[i]) <= StampOf(stamps, ids[j]))
    && (m == ByTimestampDesc ==> forall i, j :: 0 <= i < j < |ids| ==> StampOf(stamps, ids[i]) >= StampOf(stamps, ids[j]))
  }

  /**
   * The sort of `GetTasks` on task ids, with `stamps` giving each task's
   * display timestamp; `Ignored` keeps the given order.
   */
  function SortIds(ids: seq<int>, stamps: map<int, int>, m: SortMethod): (r: seq<int>)
    ensures multiset(r) == multiset(ids)
    ensures IdsSortedAs(r, stamps, m)
  {
    if m == ByTransactionId || m == ByTransactionIdDesc then
      var key := (k: int) => k;
      var r := SortBy(ids, key, m == ByTransactionIdDesc);
      assert forall i :: 0 <= i < |r| ==> key(r[i]) == r[i];
      r
    else if m == ByTimestamp || m == ByTimestampDesc then
      var key := (k: int) => StampOf(stamps, k);
      var r := SortBy(ids, key, m == ByTimestampDesc);
      assert forall i :: 0 <= i < |r| ==> key(r[i]) == StampOf(stamps, r[i]);
      r
    else ids
  }

  // ---- pack / unpack ----------------------------------------------------------

  /** `TodoServiceInfo.DataVersion`, written first and ignored when read back. */
  const DataVersion: int := 1

  /** The pack layout of a `SecretKeyInfo`. */
  function EncodeKeyInfo(k: SecretKeyInfo): seq<Token> {
    [Long(k.SecretId), Text(k.Descriptor)]
  }

  function DecodeKeyInfo(ts: seq<Token>): Option<(SecretKeyInfo, seq<Token>)> {
    if |ts| < 2 || !ts[0].Long? || ts[0].LongValue < 0 || !ts[1].Text? then None
    else Some((SecretKeyInfo(ts[0].LongValue, ts[1].TextValue), ts[2..]))
  }

  function TaskIdOf(t: TaskData): int { t.Id() }

  ghost function EncodeList(d: ListData): seq<Token> {
    [Byte(DataVersion), Long(d.ListId), Long(d.LastProcessedTransactionId)]
      + EncodeOptional(d.LastUsedSecretKeyInfo, EncodeKeyInfo)
      + EncodeMap(d.Items, EncodeTask)
      + EncodeSet(d.History)
      + EncodeOptional(d.CurrentListName, EncodeNameStorage)
  }

  /** `new TodoList(unpacker, …)`; `None` where the unpacker would throw. */
  function DecodeList(ts: seq<Token>): Option<(ListData, seq<Token>)> {
    if |ts| < 3 || !ts[0].Byte? || !ts[1].Long? || !ts[2].Long? then None
    else
      match DecodeOptional(ts[3..], DecodeKeyInfo)
      case None => None
      case Some((keyInfo, ts1)) =>
        match DecodeMap(ts1, DecodeTask, TaskIdOf)
        case None => None
        case Some((items, ts2)) =>
          match DecodeSet(ts2)
          case None => None
          case Some((history, ts3)) =>
            match DecodeOptional(ts3, DecodeNameStorage)
            case None => None
            case Some((name, rest)) =>
              Some((ListData(ts[1].LongValue, ts[2].LongValue, keyInfo, map[], items, history, name), rest))
  }

  /** An unpacked list stores every task under its id and misses no key. */
  lemma DecodedListWellKeyed(ts: seq<Token>)
    ensures DecodeList(ts).Some? ==> DecodeList(ts).value.0.WellKeyed() && DecodeList(ts).value.0.MissingSecretKeys == map[]
  {
    if |ts| >= 3 && ts[0].Byte? && ts[1].Long? && ts[2].Long? {
      match DecodeOptional(ts[3..], DecodeKeyInfo)
      case None =>
      case Some((_, ts1)) => DecodedMapKeyed(ts1, DecodeTask, TaskIdOf);
    }
  }

  // ---- the objects ------------------------------------------------------------

  /** One new task object per unpacked task, under the same key. */
  method NewTasks(tasks: map<int, TaskData>) returns (items: map<int, TodoTask>)
    requires forall k :: k in tasks ==> tasks[k].Id() == k
    ensures items.Keys == tasks.Keys
    ensures forall k :: k in items ==> items[k].Id() == k && items[k].Snapshot() == tasks[k]
    ensures forall t :: t in items.Values ==> fresh(t)
  {
    items := map[];
    var rest := tasks.Keys;
    while rest != {}
      invariant rest <= tasks.Keys
      invariant items.Keys == tasks.Keys - rest
      invariant forall k :: k in items ==> items[k].Id() == k && items[k].Snapshot() == tasks[k] && fresh(items[k])
      decreases |rest|
    {
      HasElement(rest);
      var k :| k in rest;
      var t := new TodoTask.FromData(tasks[k]);
      items := items[k := t];
      rest := rest - {k};
    }
    forall t | t in items.Values ensures fresh(t) {
      var k :| k in items && items[k] == t;
    }
  }

  /** The decrypted-record cache of the download manager: transaction id to decoded record. */
  class DecryptedStore {
    var Entries: map<int, RecordStorage>

    constructor (entries: map<int, RecordStorage>)
      ensures Entries == entries
    {
      Entries := entries;
    }
  }

  /**
   * The task objects are in the order the sort method asks for: strictly by
   * id, or by display timestamp, ascending or descending.
   */
  ghost predicate TasksSortedAs(r: seq<TodoTask>, m: SortMethod)
    reads r
  {
    && (m == ByTransactionId ==> forall i, j :: 0 <= i < j < |r| ==> r[i].Id() < r[j].Id())
    && (m == ByTransactionIdDesc ==> forall i, j :: 0 <= i < j < |r| ==> r[i].Id() > r[j].Id())
    && (m == ByTimestamp ==> forall i, j :: 0 <= i < j < |r| ==> r[i].Timestamp() <= r[j].Timestamp())
    && (m == ByTimestampDesc ==> forall i, j :: 0 <= i < j < |r| ==> r[i].Timestamp() >= r[j].Timestamp())
  }

  /** The list object; its abstract value is `Snapshot()`. */
  class TodoList {
    const ListId: int
    var LastUsedSecretKeyInfo: Option<SecretKeyInfo>
    var MissingSecretKeys: map<nat, SecretKeyInfo>
    var LastProcessedTransactionId: int
    var CurrentListNameRecord: Option<NameStorage>
    var History: set<int>
    var Items: map<int, TodoTask>

    /** Every task is stored under its own id, so distinct keys hold distinct objects. */
    ghost predicate Valid()
      reads this
    {
      forall k :: k in Items ==> Items[k].Id() == k
    }

    function Tasks(): map<int, TaskData>
      reads this, Items.Values
    {
      map k | k in Items :: Items[k].Snapshot()
    }

    function Snapshot(): ListData
      reads this, Items.Values
    {
      ListData(ListId, LastProcessedTransactionId, LastUsedSecretKeyInfo, MissingSecretKeys,
               Tasks(), History, CurrentListNameRecord)
    }

    function Name(): (n: Option<string>)
      reads this, Items.Values
      ensures n.Some? <==> CurrentListNameRecord.Some?
      ensures n.Some? ==> n.value == CurrentListNameRecord.value.Record.Name
    {
      Snapshot().Name()
    }

    /** Some secret id of the list has no key yet. */
    function HasMissingSecretKeys(): (b: bool)
      reads this
      ensures b <==> MissingSecretKeys != map[]
    {
      |MissingSecretKeys| > 0
    }

    function IsLastUsedSecretKey(defaultKey: Option<SecretKeyInfo>): (r: bool)
      reads this, Items.Values
      ensures r <==> LastUsedSecretKeyInfo.None?
                     || (defaultKey.Some? && defaultKey.value.SecretId == LastUsedSecretKeyInfo.value.SecretId)
    {
      IsLastUsedKey(Snapshot(), defaultKey)
    }

    constructor (listId: int, transactionId: int)
      ensures Valid()
      ensures Snapshot() == EmptyList(listId, transactionId)
    {
      ListId := listId;
      LastProcessedTransactionId := transactionId;
      LastUsedSecretKeyInfo := None;
      MissingSecretKeys := map[];
      CurrentListNameRecord := None;
      Items := map[];
      History := if transactionId != InvalidTransactionId then {transactionId} else {};
      new;
      assert Tasks() == map[];
    }

    /** The unpacking constructor, from the unpacked value. */
    constructor FromData(d: ListData)
      requires d.WellKeyed()
      ensures Valid()
      ensures Snapshot() == d.(MissingSecretKeys := map[])
      ensures forall t :: t in Items.Values ==> fresh(t)
    {
      var items := NewTasks(d.Items);
      ListId := d.ListId;
      LastProcessedTransactionId := d.LastProcessedTransactionId;
      LastUsedSecretKeyInfo := d.LastUsedSecretKeyInfo;
      MissingSecretKeys := map[];
      CurrentListNameRecord := d.CurrentListName;
      History := d.History;
      Items := items;
      new;
      assert Tasks() == d.Items;
    }

    /** In a valid list, the task under `id` is stored under no other key. */
    lemma OthersAreOtherObjects(id: int)
      requires Valid() && id in Items
      ensures forall k :: k in Items && k != id ==> Items[k] != Items[id]
    {
      forall k | k in Items && k != id ensures Items[k] != Items[id] {
        assert Items[k].Id() == k;
      }
    }

    /** `item.Update(taskRecord)` on the task stored under `id`. */
    method UpdateTaskItem(id: int, s: TaskStorage)
      requires Valid() && id in Items
      modifies Items[id]
      ensures Tasks() == old(Tasks())[id := ApplyTask(old(Tasks())[id], s)]
    {
      var item := Items[id];
      OthersAreOtherObjects(id);
      item.UpdateTask(s);
      assert forall k :: k in Items ==> Tasks()[k] == old(Tasks())[id := ApplyTask(old(Tasks())[id], s)][k];
    }

    /** `item.Update(statusRecord)` on the task stored under `id`. */
    method UpdateStatusItem(id: int, s: StatusStorage)
      requires Valid() && id in Items
      modifies Items[id]
      ensures Tasks() == old(Tasks())[id := ApplyStatus(old(Tasks())[id], s)]
    {
      var item := Items[id];
      OthersAreOtherObjects(id);
      item.UpdateStatus(s);
      assert forall k :: k in Items ==> Tasks()[k] == old(Tasks())[id := ApplyStatus(old(Tasks())[id], s)][k];
    }

    /** `_items[txId] = new TodoTask(taskRecord)`. */
    method AddTask(s: TaskStorage)
      requires Valid()
      modifies this
      ensures Valid()
      ensures s.TransactionId in Items && fresh(Items[s.TransactionId])
      ensures Items == old(Items)[s.TransactionId := Items[s.TransactionId]]
      ensures Tasks() == old(Tasks())[s.TransactionId := NewTask(s)]
      ensures Snapshot() == old(Snapshot()).(Items := Tasks())
    {
      var item := new TodoTask(s);
      Items := Items[s.TransactionId := item];
      assert forall k :: k in Items ==> Tasks()[k] == old(Tasks())[s.TransactionId := NewTask(s)][k];
    }

    /** `Process(storage)`. */
    method Process(s: RecordStorage)
      requires Valid()
      modifies this, Items.Values
      ensures Valid()
      ensures Snapshot() == ProcessRecord(old(Snapshot()), s)
      ensures forall t :: t in Items.Values ==> t in old(Items.Values) || fresh(t)
    {
      LastProcessedTransactionId := Max(s.TransactionId, LastProcessedTransactionId);
      History := History + {s.TransactionId};
      if s.Record.ListName? {
        if CurrentListNameRecord.Some? {
          if s.TransactionId > CurrentListNameRecord.value.TransactionId {
            CurrentListNameRecord := Some(s);
          }
        } else {
          CurrentListNameRecord := Some(s);
        }
      } else if s.Record.Task? {
        if s.TargetedTransactionId in Items {
          UpdateTaskItem(s.TargetedTransactionId, s);
        } else {
          AddTask(s);
        }
      } else if s.TargetedTransactionId in Items {
        UpdateStatusItem(s.TargetedTransactionId, s);
      }
    }

    /**
     * `GetDecryptedRecord<T>`: try the registry's candidate keys for the
     * envelope's secret id in order; the first that decrypts wins.
     */
    method GetDecryptedRecord(env: Env, tx: Transaction, target: int, groupId: int,
                              payload: seq<bv8>, kind: EncryptedKind) returns (dec: Decoding)
      modifies this
      ensures Items == old(Items)
      ensures (Snapshot(), dec) == DecryptSpec(old(Snapshot()), env, tx, target, groupId, payload, kind)
    {
      var envelope := env.ParseEnvelope(payload);
      if envelope.None? {
        return Malformed;
      }
      var e := envelope.value;
      var keys := env.SecretKeys(ListId, e.KeyInfo.SecretId);
      for i := 0 to |keys|
        invariant forall j :: 0 <= j < i ==> env.Decrypt(e, keys[j]).None?
      {
        var text := env.Decrypt(e, keys[i]);
        if text.Some? {
          assert FirstDecryption(keys, e, env.Decrypt) == text;
          LastUsedSecretKeyInfo := Some(e.KeyInfo);
          assert Tasks() == old(Tasks());
          var record := if kind == TaskText then Task(text.value) else ListName(text.value);
          return Decoded(RecordStorage(record, tx.TransactionId, tx.AccountId, tx.Timestamp, target, groupId));
        }
      }
      assert FirstDecryption(keys, e, env.Decrypt).None?;
      if e.KeyInfo.SecretId !in MissingSecretKeys {
        MissingSecretKeys := MissingSecretKeys[e.KeyInfo.SecretId := e.KeyInfo];
      }
      assert Tasks() == old(Tasks());
      return NoRecord;
    }

    /**
     * The decoding part of `ProcessTransaction`: read the first target, then
     * decode the payload by the group index (status records are not encrypted).
     */
    method ReadTransaction(env: Env, tx: Transaction, g: GroupFeature, payload: seq<bv8>) returns (dec: Decoding)
      modifies this
      ensures Items == old(Items)
      ensures (Snapshot(), dec) == ReadRecord(old(Snapshot()), env, tx, g, payload)
    {
      if tx.Targets.Some? && |tx.Targets.value| == 0 {
        return Malformed;
      }
      var target := if tx.Targets.Some? then tx.Targets.value[0] else InvalidTransactionId;
      if g.GroupIndex == TodoTaskStatusIndex {
        var status := env.DecodeStatus(payload);
        if status.None? {
          return Malformed;
        }
        dec := Decoded(RecordStorage(TaskStatus(status.value), tx.TransactionId, tx.AccountId, tx.Timestamp, target, g.GroupId));
      } else if g.GroupIndex == TodoTaskIndex {
        dec := GetDecryptedRecord(env, tx, target, g.GroupId, payload, TaskText);
      } else if g.GroupIndex == TodoListNameIndex {
        dec := GetDecryptedRecord(env, tx, target, g.GroupId, payload, ListNameText);
      } else {
        dec := NoRecord;
      }
    }

    /** `ProcessTransaction`: decode (or take from the cache), cache, and apply unless a key is missing. */
    method ProcessTransaction(env: Env, tx: Transaction, store: DecryptedStore)
      requires Valid()
      modifies this, Items.Values, store
      ensures Valid()
      ensures (Snapshot(), store.Entries) == ProcessTransactionSpec(old(Snapshot()), old(store.Entries), env, tx)
      ensures forall t :: t in Items.Values ==> t in old(Items.Values) || fresh(t)
    {
      if tx.Data.None? || tx.Group.None? {
        return;
      }
      var g := tx.Group.value;
      var payload := tx.Data.value;
      var dec: Decoding;
      if tx.TransactionId in store.Entries {
        dec := Decoded(store.Entries[tx.TransactionId]);
      } else {
        dec := ReadTransaction(env, tx, g, payload);
        if dec.Malformed? {
          return;
        }
        if dec.Decoded? {
          store.Entries := store.Entries[tx.TransactionId := dec.Storage];
        }
      }
      if dec.Decoded? && |MissingSecretKeys| == 0 {
        Process(dec.Storage);
      }
    }

    /** The pruning loop of `DownloadTransactions`. */
    method PruneMissingSecretKeys(env: Env)
      modifies this
      ensures Items == old(Items)
      ensures Snapshot() == Prune(old(Snapshot()), env)
    {
      var missingIds := MissingSecretKeys.Keys;
      var rest := missingIds;
      while rest != {}
        invariant rest <= missingIds
        invariant Items == old(Items)
        invariant Snapshot() == old(Snapshot()).(MissingSecretKeys := MissingSecretKeys)
        invariant MissingSecretKeys == map k | k in old(MissingSecretKeys) && (k in rest || |env.SecretKeys(ListId, k)| == 0) :: old(MissingSecretKeys)[k]
        decreases |rest|
      {
        var id :| id in rest;
        if |env.SecretKeys(ListId, id)| > 0 {
          MissingSecretKeys := MissingSecretKeys - {id};
        }
        rest := rest - {id};
      }
    }

    /**
     * `DownloadTransactions`: prune the missing keys, download from the
     * cursor, and apply the transactions in ascending id order.
     */
    method DownloadTransactions(env: Env, fetch: (int, int) -> Option<seq<Transaction>>, store: DecryptedStore)
      returns (result: QueryResult)
      requires Valid()
      modifies this, Items.Values, store
      ensures Valid()
      ensures (Snapshot(), store.Entries, result) == DownloadSpec(old(Snapshot()), old(store.Entries), env, fetch)
    {
      PruneMissingSecretKeys(env);
      var download := fetch(ListId, Max(LastProcessedTransactionId, FirstTransactionId));
      if download.None? {
        return DownloadError;
      }
      var txs := SortBy(download.value, TransactionIdOf, false);
      ghost var d1, c1 := Snapshot(), store.Entries;
      for i := 0 to |txs|
        invariant Valid()
        invariant (Snapshot(), store.Entries) == ProcessAll(d1, c1, env, txs[..i])
        invariant forall t :: t in Items.Values ==> t in old(Items.Values) || fresh(t)
      {
        assert txs[..i + 1][..i] == txs[..i];
        ProcessTransaction(env, txs[i], store);
      }
      assert txs[..|txs|] == txs;
      return LiveData;
    }

    /** The keys of the tasks with the given status, each once. */
    method MatchingIds(status: TaskStatusType) returns (ids: seq<int>)
      ensures NoDup(ids)
      ensures forall k :: k in ids <==> k in Items && Items[k].Status() == status
    {
      ids := [];
      var rest := Items.Keys;
      while rest != {}
        invariant rest <= Items.Keys
        invariant NoDup(ids)
        invariant forall k :: k in ids <==> k in Items && k !in rest && Items[k].Status() == status
        decreases |rest|
      {
        HasElement(rest);
        var k :| k in rest;
        if Items[k].Status() == status {
          ids := ids + [k];
        }
        rest := rest - {k};
      }
    }

    /** The tasks stored under the given keys, in the same order. */
    function TasksOf(ids: seq<int>): (r: seq<TodoTask>)
      requires forall i :: 0 <= i < |ids| ==> ids[i] in Items
      reads this
      ensures |r| == |ids|
      ensures forall i :: 0 <= i < |r| ==> r[i] == Items[ids[i]]
    {
      if ids == [] then [] else [Items[ids[0]]] + TasksOf(ids[1..])
    }

    /**
     * `GetTasks(status, sortMethod)`: the tasks with the given status, sorted
     * by id or display timestamp as the method says (`Ignored`: any order).
     */
    method GetTasks(status: TaskStatusType, sortMethod: SortMethod) returns (r: seq<TodoTask>)
      requires Valid()
      ensures forall t :: t in r <==> t in Items.Values && t.Status() == status
      ensures forall i, j :: 0 <= i < j < |r| ==> r[i] != r[j]
      ensures TasksSortedAs(r, sortMethod)
    {
      var ids := MatchingIds(status);
      var stamps := map k | k in Items :: Items[k].Timestamp();
      assert forall i :: 0 <= i < |ids| ==> ids[i] in ids;
      var sorted := SortIds(ids, stamps, sortMethod);
      NoDupPermutation(ids, sorted);
      SameElements(ids, sorted);
      assert forall i :: 0 <= i < |sorted| ==> sorted[i] in sorted;
      r := TasksOf(sorted);
      SelectionMembers(sorted, r, status);
      SelectionKeys(sorted, r, stamps);
      SelectionOrder(sorted, r, stamps, sortMethod);
    }

    lemma SelectionMembers(ids: seq<int>, r: seq<TodoTask>, status: TaskStatusType)
      requires forall k :: k in ids <==> k in Items && Items[k].Status() == status
      requires |r| == |ids| && forall i :: 0 <= i < |r| ==> ids[i] in Items && r[i] == Items[ids[i]]
      ensures forall t :: t in r <==> t in Items.Values && t.Status() == status
    {
      forall t: TodoTask ensures t in r <==> t in Items.Values && t.Status() == status {
        if t in r {
          var j :| 0 <= j < |r| && r[j] == t;
          var k := ids[j];
          assert k in ids;
          assert k in Items && Items[k].Status() == status;
          assert t == Items[k];
          assert t in Items.Values;
        }
        if t in Items.Values && t.Status() == status {
          var k := KeyOfValue(Items, t);
          assert k in ids;
          var j :| 0 <= j < |ids| && ids[j] == k;
          assert r[j] == t;
          assert t in r;
        }
      }
    }

    lemma SelectionKeys(ids: seq<int>, r: seq<TodoTask>, stamps: map<int, int>)
      requires Valid()
      requires stamps == map k | k in Items :: Items[k].Timestamp()
      requires |r| == |ids| && forall i :: 0 <= i < |r| ==> ids[i] in Items && r[i] == Items[ids[i]]
      ensures forall i :: 0 <= i < |r| ==> r[i].Id() == ids[i] && r[i].Timestamp() == StampOf(stamps, ids[i])
    {
    }

    /** Tasks listed in the order of their distinct, sorted keys are distinct and sorted the same way. */
    lemma SelectionOrder(ids: seq<int>, r: seq<TodoTask>, stamps: map<int, int>, m: SortMethod)
      requires NoDup(ids)
      requires |r| == |ids|
      requires forall i :: 0 <= i < |r| ==> r[i].Id() == ids[i] && r[i].Timestamp() == StampOf(stamps, ids[i])
      requires IdsSortedAs(ids, stamps, m)
      ensures forall i, j :: 0 <= i < j < |r| ==> r[i] != r[j]
      ensures TasksSortedAs(r, m)
    {
      forall i, j | 0 <= i < j < |r| ensures r[i].Id() != r[j].Id() {
        assert ids[i] != ids[j];
      }
    }

    ghost function Pack(): seq<Token>
      reads this, Items.Values
    {
      EncodeList(Snapshot())
    }
  }
}
