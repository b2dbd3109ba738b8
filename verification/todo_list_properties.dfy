/**
 * What the replay engine of a todo list guarantees: the invariants every
 * step keeps, what never shrinks, the blocking rule for missing keys, the
 * download cycle, the pack round trip, and the one place where replay is not
 * idempotent.
 */
module TodoListProperties {
  import opened Wrappers
  import opened Collections
  import opened Packing
  import opened Records
  import opened Sorting
  import opened TodoTasks
  import opened TodoLists

  // ---- Process ----------------------------------------------------------------

  /**
   * `Process` moves the cursor to the larger of itself and the record's id,
   * adds the id to the list history, and routes the record by kind.
   */
  lemma ProcessRecordRouting(d: ListData, s: RecordStorage)
    ensures var r := ProcessRecord(d, s);
      && r.LastProcessedTransactionId == Max(s.TransactionId, d.LastProcessedTransactionId)
      && r.LastProcessedTransactionId >= d.LastProcessedTransactionId
      && r.History == d.History + {s.TransactionId}
      && r.ListId == d.ListId
      && r.MissingSecretKeys == d.MissingSecretKeys
      && r.LastUsedSecretKeyInfo == d.LastUsedSecretKeyInfo
      // a list-name record: taken when there is no name, else only when strictly newer
      && (s.Record.ListName? ==>
            && r.Items == d.Items
            && (d.CurrentListName.None? ==> r.CurrentListName == Some(s))
            && (d.CurrentListName.Some? && s.TransactionId > d.CurrentListName.value.TransactionId ==> r.CurrentListName == Some(s))
            && (d.CurrentListName.Some? && s.TransactionId <= d.CurrentListName.value.TransactionId ==> r.CurrentListName == d.CurrentListName))
      // a task record: updates its target, or creates a task under its own id
      && (s.Record.Task? && s.TargetedTransactionId in d.Items ==>
            && r.Items.Keys == d.Items.Keys
            && r.Items[s.TargetedTransactionId] == ApplyTask(d.Items[s.TargetedTransactionId], s)
            && (forall k :: k in d.Items && k != s.TargetedTransactionId ==> r.Items[k] == d.Items[k]))
      && (s.Record.Task? && s.TargetedTransactionId !in d.Items ==>
            && r.Items.Keys == d.Items.Keys + {s.TransactionId}
            && r.Items[s.TransactionId] == NewTask(s)
            && (forall k :: k in d.Items && k != s.TransactionId ==> r.Items[k] == d.Items[k]))
      // a status record: updates its target, or no task at all
      && (s.Record.TaskStatus? && s.TargetedTransactionId in d.Items ==>
            && r.Items.Keys == d.Items.Keys
            && r.Items[s.TargetedTransactionId] == ApplyStatus(d.Items[s.TargetedTransactionId], s)
            && (forall k :: k in d.Items && k != s.TargetedTransactionId ==> r.Items[k] == d.Items[k]))
      && (s.Record.TaskStatus? && s.TargetedTransactionId !in d.Items ==> r.Items == d.Items)
      && (!s.Record.ListName? ==> r.CurrentListName == d.CurrentListName)
  {
  }

  /**
   * The name a list shows after `Process`: a name record's name when the list
   * had none or the record is strictly newer than the current one; otherwise,
   * and for every other record, the name is unchanged.
   */
  lemma ShownNameAfterProcess(d: ListData, s: RecordStorage)
    ensures s.Record.ListName? && (d.CurrentListName.None? || s.TransactionId > d.CurrentListName.value.TransactionId)
            ==> ProcessRecord(d, s).Name() == Some(s.Record.Name)
    ensures !(s.Record.ListName? && (d.CurrentListName.None? || s.TransactionId > d.CurrentListName.value.TransactionId))
            ==> ProcessRecord(d, s).Name() == d.Name()
  {
  }

  /**
   * The list invariant: tasks are stored under their ids and are themselves
   * consistent, every task's history is part of the list's, and no applied
   * id lies beyond the cursor.
   */
  ghost predicate Consistent(d: ListData) {
    && d.WellKeyed()
    && (forall k :: k in d.Items ==> d.Items[k].Valid() && d.Items[k].History <= d.History)
    && (forall h :: h in d.History ==> h <= d.LastProcessedTransactionId)
  }

  lemma EmptyListConsistent(listId: int, transactionId: int)
    ensures Consistent(EmptyList(listId, transactionId))
  {
  }

  lemma ProcessRecordConsistent(d: ListData, s: RecordStorage)
    requires Consistent(d)
    ensures Consistent(ProcessRecord(d, s))
  {
    var r := ProcessRecord(d, s);
    forall k | k in r.Items ensures r.Items[k].Valid() && r.Items[k].History <= r.History {
      if k in d.Items && k != s.TargetedTransactionId && k != s.TransactionId {
        assert r.Items[k] == d.Items[k];
      }
    }
  }

  lemma ProcessTransactionConsistent(d: ListData, cache: map<int, RecordStorage>, env: Env, tx: Transaction)
    requires Consistent(d)
    ensures Consistent(ProcessTransactionSpec(d, cache, env, tx).0)
  {
    if tx.Data.Some? && tx.Group.Some? && tx.TransactionId !in cache {
      var (d1, dec) := ReadRecord(d, env, tx, tx.Group.value, tx.Data.value);
      assert d1.Items == d.Items && d1.History == d.History && d1.LastProcessedTransactionId == d.LastProcessedTransactionId;
      if dec.Decoded? {
        ProcessRecordConsistent(d1, dec.Storage);
      }
    } else if tx.Data.Some? && tx.Group.Some? {
      ProcessRecordConsistent(d, cache[tx.TransactionId]);
    }
  }

  lemma {:induction false} ProcessAllConsistent(d: ListData, cache: map<int, RecordStorage>, env: Env, txs: seq<Transaction>)
    requires Consistent(d)
    ensures Consistent(ProcessAll(d, cache, env, txs).0)
    decreases |txs|
  {
    if txs != [] {
      ProcessAllConsistent(d, cache, env, txs[..|txs| - 1]);
      var (d1, c1) := ProcessAll(d, cache, env, txs[..|txs| - 1]);
      ProcessTransactionConsistent(d1, c1, env, txs[|txs| - 1]);
    }
  }

  lemma DownloadConsistent(d: ListData, cache: map<int, RecordStorage>, env: Env,
                           fetch: (int, int) -> Option<seq<Transaction>>)
    requires Consistent(d)
    ensures Consistent(DownloadSpec(d, cache, env, fetch).0)
  {
    var d1 := Prune(d, env);
    assert Consistent(d1);
    if fetch(d.ListId, DownloadStart(d)).Some? {
      ProcessAllConsistent(d1, cache, env, SortBy(fetch(d.ListId, DownloadStart(d)).value, TransactionIdOf, false));
    }
  }

  // ---- what never shrinks ------------------------------------------------------

  /** One transaction: cursor, history, tasks, missing keys and cache entries only grow. */
  lemma TransactionMonotone(d: ListData, cache: map<int, RecordStorage>, env: Env, tx: Transaction)
    ensures var (r, c) := ProcessTransactionSpec(d, cache, env, tx);
      && r.ListId == d.ListId
      && r.LastProcessedTransactionId >= d.LastProcessedTransactionId
      && d.History <= r.History
      && d.Items.Keys <= r.Items.Keys
      && d.MissingSecretKeys.Keys <= r.MissingSecretKeys.Keys
      && (forall k :: k in cache ==> k in c && c[k] == cache[k])
  {
    var (r, c) := ProcessTransactionSpec(d, cache, env, tx);
    if tx.Data.Some? && tx.Group.Some? {
      var (d1, dec) :=
        if tx.TransactionId in cache then (d, Decoded(cache[tx.TransactionId]))
        else ReadRecord(d, env, tx, tx.Group.value, tx.Data.value);
      if tx.TransactionId !in cache {
        ReadRecordKeeps(d, env, tx, tx.Group.value, tx.Data.value);
      }
      if !dec.Malformed? && dec.Decoded? && |d1.MissingSecretKeys| == 0 {
        assert r == ProcessRecord(d1, dec.Storage);
        ProcessRecordGrows(d1, dec.Storage);
      }
    }
  }

  /** Processing a record keeps the list id and the missing keys, and loses no task, id or cursor progress. */
  lemma ProcessRecordGrows(d: ListData, s: RecordStorage)
    ensures var r := ProcessRecord(d, s);
      && r.ListId == d.ListId
      && r.LastProcessedTransactionId >= d.LastProcessedTransactionId
      && d.History <= r.History
      && d.Items.Keys <= r.Items.Keys
      && r.MissingSecretKeys == d.MissingSecretKeys
  {
  }

  /** Reading a payload touches only the last used key and the missing keys, which only grow. */
  lemma ReadRecordKeeps(d: ListData, env: Env, tx: Transaction, g: GroupFeature, payload: seq<bv8>)
    ensures var d1 := ReadRecord(d, env, tx, g, payload).0;
      && d1 == d.(LastUsedSecretKeyInfo := d1.LastUsedSecretKeyInfo, MissingSecretKeys := d1.MissingSecretKeys)
      && d.MissingSecretKeys.Keys <= d1.MissingSecretKeys.Keys
  {
  }

  lemma {:induction false} ProcessAllMonotone(d: ListData, cache: map<int, RecordStorage>, env: Env, txs: seq<Transaction>)
    ensures var (r, c) := ProcessAll(d, cache, env, txs);
      && r.ListId == d.ListId
      && r.LastProcessedTransactionId >= d.LastProcessedTransactionId
      && d.History <= r.History
      && d.Items.Keys <= r.Items.Keys
      && d.MissingSecretKeys.Keys <= r.MissingSecretKeys.Keys
      && (forall k :: k in cache ==> k in c && c[k] == cache[k])
    decreases |txs|
  {
    if txs != [] {
      ProcessAllMonotone(d, cache, env, txs[..|txs| - 1]);
      var (d1, c1) := ProcessAll(d, cache, env, txs[..|txs| - 1]);
      TransactionMonotone(d1, c1, env, txs[|txs| - 1]);
    }
  }

  /** Replaying a download in two parts is replaying it at once. */
  lemma {:induction false} ProcessAllSplit(d: ListData, cache: map<int, RecordStorage>, env: Env,
                                           txs: seq<Transaction>, more: seq<Transaction>)
    ensures ProcessAll(d, cache, env, txs + more)
         == ProcessAll(ProcessAll(d, cache, env, txs).0, ProcessAll(d, cache, env, txs).1, env, more)
    decreases |more|
  {
    if more == [] {
      assert txs + more == txs;
    } else {
      var all := txs + more;
      assert all[..|all| - 1] == txs + more[..|more| - 1];
      assert all[|all| - 1] == more[|more| - 1];
      ProcessAllSplit(d, cache, env, txs, more[..|more| - 1]);
    }
  }

  // ---- missing keys block the replay -------------------------------------------

  /** While a key is missing, a transaction applies nothing, and the key stays missing. */
  lemma BlockedTransaction(d: ListData, cache: map<int, RecordStorage>, env: Env, tx: Transaction)
    requires |d.MissingSecretKeys| > 0
    ensures var r := ProcessTransactionSpec(d, cache, env, tx).0;
      && r.Items == d.Items
      && r.LastProcessedTransactionId == d.LastProcessedTransactionId
      && r.History == d.History
      && r.CurrentListName == d.CurrentListName
      && |r.MissingSecretKeys| > 0
  {
    TransactionMonotone(d, cache, env, tx);
    var r := ProcessTransactionSpec(d, cache, env, tx).0;
    assert |r.MissingSecretKeys.Keys| >= |d.MissingSecretKeys.Keys| by {
      SubsetCard(d.MissingSecretKeys.Keys, r.MissingSecretKeys.Keys);
    }
  }

  lemma SubsetCard(a: set<nat>, b: set<nat>)
    requires a <= b
    ensures |a| <= |b|
  {
    assert b == a + (b - a);
  }

  /** While a key is missing, a whole download applies nothing. */
  lemma {:induction false} BlockedDownload(d: ListData, cache: map<int, RecordStorage>, env: Env, txs: seq<Transaction>)
    requires |d.MissingSecretKeys| > 0
    ensures var r := ProcessAll(d, cache, env, txs).0;
      && r.Items == d.Items
      && r.LastProcessedTransactionId == d.LastProcessedTransactionId
      && r.History == d.History
      && r.CurrentListName == d.CurrentListName
      && |r.MissingSecretKeys| > 0
    decreases |txs|
  {
    if txs != [] {
      BlockedDownload(d, cache, env, txs[..|txs| - 1]);
      var (d1, c1) := ProcessAll(d, cache, env, txs[..|txs| - 1]);
      BlockedTransaction(d1, c1, env, txs[|txs| - 1]);
    }
  }

  /** A transaction after which a key is missing applied nothing. */
  lemma FailingTransactionAppliesNothing(d: ListData, cache: map<int, RecordStorage>, env: Env, tx: Transaction)
    requires |ProcessTransactionSpec(d, cache, env, tx).0.MissingSecretKeys| > 0
    ensures var r := ProcessTransactionSpec(d, cache, env, tx).0;
      && r.LastProcessedTransactionId == d.LastProcessedTransactionId
      && r.Items == d.Items
      && r.History == d.History
      && r.CurrentListName == d.CurrentListName
  {
    if tx.Data.Some? && tx.Group.Some? && tx.TransactionId !in cache {
      var (dr, dec) := ReadRecord(d, env, tx, tx.Group.value, tx.Data.value);
      assert dr.Items == d.Items && dr.History == d.History && dr.CurrentListName == d.CurrentListName
          && dr.LastProcessedTransactionId == d.LastProcessedTransactionId;
    }
  }

  /**
   * The cursor stops at the first transaction whose key is missing: when the
   * `i`-th transaction of a download leaves a key missing, neither it nor
   * any later one moves the cursor, changes a task or the name, so the next
   * download starts where it would have started before the failing one.
   */
  lemma CursorStopsAtFirstFailure(d: ListData, cache: map<int, RecordStorage>, env: Env, txs: seq<Transaction>, i: nat)
    requires i < |txs|
    requires |ProcessAll(d, cache, env, txs[..i + 1]).0.MissingSecretKeys| > 0
    ensures var before := ProcessAll(d, cache, env, txs[..i]).0;
            var after := ProcessAll(d, cache, env, txs).0;
      && after.LastProcessedTransactionId == before.LastProcessedTransactionId
      && after.Items == before.Items
      && after.History == before.History
      && after.CurrentListName == before.CurrentListName
      && DownloadStart(after) == DownloadStart(before)
  {
    var (d0, c0) := ProcessAll(d, cache, env, txs[..i]);
    assert txs[..i + 1][..i] == txs[..i];
    var (d1, c1) := ProcessTransactionSpec(d0, c0, env, txs[i]);
    assert ProcessAll(d, cache, env, txs[..i + 1]) == (d1, c1);
    FailingTransactionAppliesNothing(d0, c0, env, txs[i]);
    // and everything after it is blocked
    assert txs == txs[..i + 1] + txs[i + 1..];
    ProcessAllSplit(d, cache, env, txs[..i + 1], txs[i + 1..]);
    BlockedDownload(d1, c1, env, txs[i + 1..]);
  }

  // ---- GetDecryptedRecord -------------------------------------------------------

  /**
   * A record's envelope that cannot be parsed leaves the list unchanged; the
   * first key that decrypts it becomes the last used key; when none does, the
   * secret id is recorded as missing and the last used key is unchanged.
   */
  lemma DecryptOutcomes(d: ListData, env: Env, tx: Transaction, target: int, groupId: int,
                        payload: seq<bv8>, kind: EncryptedKind)
    ensures var (r, dec) := DecryptSpec(d, env, tx, target, groupId, payload, kind);
      && r.(LastUsedSecretKeyInfo := d.LastUsedSecretKeyInfo, MissingSecretKeys := d.MissingSecretKeys) == d
      && (env.ParseEnvelope(payload).None? ==> r == d && dec == Malformed)
      && (env.ParseEnvelope(payload).Some? ==>
            var e := env.ParseEnvelope(payload).value;
            var keys := env.SecretKeys(d.ListId, e.KeyInfo.SecretId);
            && (dec.NoRecord? <==> forall i :: 0 <= i < |keys| ==> env.Decrypt(e, keys[i]).None?)
            && (dec.NoRecord? ==>
                  && r.LastUsedSecretKeyInfo == d.LastUsedSecretKeyInfo
                  && e.KeyInfo.SecretId in r.MissingSecretKeys
                  && r.MissingSecretKeys.Keys == d.MissingSecretKeys.Keys + {e.KeyInfo.SecretId}
                  && (forall k :: k in d.MissingSecretKeys ==> r.MissingSecretKeys[k] == d.MissingSecretKeys[k]))
            && (dec.Decoded? ==>
                  && r.LastUsedSecretKeyInfo == Some(e.KeyInfo)
                  && r.MissingSecretKeys == d.MissingSecretKeys
                  && dec.Storage.TransactionId == tx.TransactionId
                  && dec.Storage.TargetedTransactionId == target
                  && dec.Storage.GroupId == groupId
                  && (kind == TaskText <==> dec.Storage.Record.Task?)
                  && exists i :: 0 <= i < |keys|
                       && (forall j :: 0 <= j < i ==> env.Decrypt(e, keys[j]).None?)
                       && env.Decrypt(e, keys[i]) == Some(if kind == TaskText then dec.Storage.Record.Text else dec.Storage.Record.Name))
            && !dec.Malformed?)
  {
  }

  /**
   * After a successful decryption the divergent-key check passes exactly for
   * accounts whose default key has the record's secret id; before any, it
   * passes for every account.
   */
  lemma LastUsedKeyAfterDecryption(d: ListData, env: Env, tx: Transaction, target: int, groupId: int,
                                   payload: seq<bv8>, kind: EncryptedKind, defaultKey: Option<SecretKeyInfo>)
    requires DecryptSpec(d, env, tx, target, groupId, payload, kind).1.Decoded?
    ensures env.ParseEnvelope(payload).Some?
    ensures IsLastUsedKey(DecryptSpec(d, env, tx, target, groupId, payload, kind).0, defaultKey)
        <==> defaultKey.Some? && defaultKey.value.SecretId == env.ParseEnvelope(payload).value.KeyInfo.SecretId
  {
  }

  lemma NoKeyUsedYet(d: ListData, defaultKey: Option<SecretKeyInfo>)
    requires d.LastUsedSecretKeyInfo.None?
    ensures IsLastUsedKey(d, defaultKey)
  {
  }

  // ---- the download cycle ------------------------------------------------------

  /**
   * One download cycle: the missing ids that now have a key are removed
   * (and only those); the download starts at the larger of the cursor and
   * the first transaction id; when it fails nothing else changes; when it
   * succeeds the transactions are applied in ascending id order.
   */
  lemma DownloadCycle(d: ListData, cache: map<int, RecordStorage>, env: Env,
                      fetch: (int, int) -> Option<seq<Transaction>>)
    ensures forall k :: k in Prune(d, env).MissingSecretKeys
              <==> k in d.MissingSecretKeys && |env.SecretKeys(d.ListId, k)| == 0
    ensures Prune(d, env).(MissingSecretKeys := d.MissingSecretKeys) == d
    ensures DownloadStart(d) >= d.LastProcessedTransactionId && DownloadStart(d) >= FirstTransactionId
    ensures DownloadStart(d) == d.LastProcessedTransactionId || DownloadStart(d) == FirstTransactionId
    ensures fetch(d.ListId, DownloadStart(d)).None? ==>
              DownloadSpec(d, cache, env, fetch) == (Prune(d, env), cache, DownloadError)
    ensures fetch(d.ListId, DownloadStart(d)).Some? ==>
              var txs := fetch(d.ListId, DownloadStart(d)).value;
              exists sorted: seq<Transaction> ::
                && multiset(sorted) == multiset(txs)
                && (forall i, j :: 0 <= i < j < |sorted| ==> sorted[i].TransactionId <= sorted[j].TransactionId)
                && DownloadSpec(d, cache, env, fetch)
                   == (ProcessAll(Prune(d, env), cache, env, sorted).0, ProcessAll(Prune(d, env), cache, env, sorted).1, LiveData)
  {
    if fetch(d.ListId, DownloadStart(d)).Some? {
      var txs := fetch(d.ListId, DownloadStart(d)).value;
      var sorted := SortBy(txs, TransactionIdOf, false);
      assert forall i, j :: 0 <= i < j < |sorted| ==> InOrder(TransactionIdOf(sorted[i]), TransactionIdOf(sorted[j]), false);
    }
  }

  // ---- replay is not idempotent ------------------------------------------------

  /**
   * Replaying a task's creation record after the task was closed replaces
   * the task with a fresh open one: the creation record targets no task, so
   * `Process` stores a new task under the record's id again.
   */
  lemma ReplayedCreationReopensTask()
    ensures var create := RecordStorage(Task("milk"), 10, 1, 100, InvalidTransactionId, 7);
            var close := RecordStorage(TaskStatus(Closed), 11, 1, 101, 10, 7);
            var once := ProcessRecord(ProcessRecord(EmptyList(7, InvalidTransactionId), create), close);
            var again := ProcessRecord(once, create);
      && 10 in once.Items && 10 in again.Items
      && once.Items[10].Status() == Closed
      && again.Items[10].Status() == Open
      && again.Items[10].History == {10}
      && once.Items[10].History == {10, 11}
  {
  }

  /** A list-name, a creation, an edit and a close, replayed in order. */
  lemma ReplayScenario()
    ensures var name := RecordStorage(ListName("shopping"), 3, 1, 30, InvalidTransactionId, 7);
            var create := RecordStorage(Task("milk"), 4, 1, 40, InvalidTransactionId, 7);
            var edit := RecordStorage(Task("oat milk"), 6, 1, 60, 4, 7);
            var close := RecordStorage(TaskStatus(Closed), 5, 1, 50, 4, 7);
            var r := ProcessRecord(ProcessRecord(ProcessRecord(ProcessRecord(
                       EmptyList(7, InvalidTransactionId), name), create), edit), close);
      && r.Name() == Some("shopping")
      && r.Items.Keys == {4}
      && r.Items[4].Text() == "oat milk"
      && r.Items[4].Status() == Closed
      && r.Items[4].Timestamp() == 60
      && r.LastProcessedTransactionId == 6
      && r.History == {3, 4, 5, 6}
  {
  }

  // ---- pack / unpack ----------------------------------------------------------

  lemma KeyInfoRoundTrips(k: SecretKeyInfo)
    ensures RoundTrips(k, EncodeKeyInfo, DecodeKeyInfo)
  {
    forall tail ensures DecodeKeyInfo(EncodeKeyInfo(k) + tail) == Some((k, tail)) {
      assert (EncodeKeyInfo(k) + tail)[2..] == tail;
    }
  }

  lemma TasksRoundTrip(items: map<int, TaskData>, rest: seq<Token>)
    requires forall k :: k in items ==> items[k].Id() == k
    ensures DecodeMap(EncodeMap(items, EncodeTask) + rest, DecodeTask, TaskIdOf) == Some((items, rest))
  {
    forall k | k in items ensures RoundTrips(items[k], EncodeTask, DecodeTask) {
      forall tail ensures DecodeTask(EncodeTask(items[k]) + tail) == Some((items[k], tail)) {
        TaskRoundTrip(items[k], tail);
      }
    }
    MapRoundTrip(items, EncodeTask, DecodeTask, TaskIdOf, rest);
  }

  /** `DecodeList` from the results of its four inner decoders. */
  lemma DecodeListSteps(ts: seq<Token>, ts1: seq<Token>, ts2: seq<Token>, ts3: seq<Token>, ts4: seq<Token>,
                        rest: seq<Token>, key: Option<SecretKeyInfo>, items: map<int, TaskData>,
                        history: set<int>, name: Option<NameStorage>)
    requires |ts| >= 3 && ts[0].Byte? && ts[1].Long? && ts[2].Long? && ts[3..] == ts1
    requires DecodeOptional(ts1, DecodeKeyInfo) == Some((key, ts2))
    requires DecodeMap(ts2, DecodeTask, TaskIdOf) == Some((items, ts3))
    requires DecodeSet(ts3) == Some((history, ts4))
    requires DecodeOptional(ts4, DecodeNameStorage) == Some((name, rest))
    ensures DecodeList(ts) == Some((ListData(ts[1].LongValue, ts[2].LongValue, key, map[], items, history, name), rest))
  {
  }

  /** The pack of a list, followed by a tail, as its five parts. */
  lemma EncodeListParts(d: ListData, rest: seq<Token>)
    ensures EncodeList(d) + rest
         == [Byte(DataVersion), Long(d.ListId), Long(d.LastProcessedTransactionId)]
          + (EncodeOptional(d.LastUsedSecretKeyInfo, EncodeKeyInfo)
          + (EncodeMap(d.Items, EncodeTask)
          + (EncodeSet(d.History)
          + (EncodeOptional(d.CurrentListName, EncodeNameStorage) + rest))))
  {
    var head: seq<Token> := [Byte(DataVersion), Long(d.ListId), Long(d.LastProcessedTransactionId)];
    var key := EncodeOptional(d.LastUsedSecretKeyInfo, EncodeKeyInfo);
    var items := EncodeMap(d.Items, EncodeTask);
    var history := EncodeSet(d.History);
    var name := EncodeOptional(d.CurrentListName, EncodeNameStorage);
    assert EncodeList(d) == head + key + items + history + name;
    ConcatRight(head, key, items, history, name, rest);
  }

  /** Unpacking a packed list gives back the list, with no key missing. */
  lemma ListRoundTrip(d: ListData, rest: seq<Token>)
    requires d.WellKeyed()
    ensures DecodeList(EncodeList(d) + rest) == Some((d.(MissingSecretKeys := map[]), rest))
  {
    var ts4 := EncodeOptional(d.CurrentListName, EncodeNameStorage) + rest;
    var ts3 := EncodeSet(d.History) + ts4;
    var ts2 := EncodeMap(d.Items, EncodeTask) + ts3;
    var ts1 := EncodeOptional(d.LastUsedSecretKeyInfo, EncodeKeyInfo) + ts2;
    var ts := [Byte(DataVersion), Long(d.ListId), Long(d.LastProcessedTransactionId)] + ts1;
    EncodeListParts(d, rest);
    if d.LastUsedSecretKeyInfo.Some? {
      KeyInfoRoundTrips(d.LastUsedSecretKeyInfo.value);
    }
    OptionalRoundTrip(d.LastUsedSecretKeyInfo, EncodeKeyInfo, DecodeKeyInfo, ts2);
    TasksRoundTrip(d.Items, ts3);
    SetRoundTrip(d.History, ts4);
    if d.CurrentListName.Some? {
      NameRoundTrips(d.CurrentListName.value);
    }
    OptionalRoundTrip(d.CurrentListName, EncodeNameStorage, DecodeNameStorage, rest);
    DecodeListSteps(ts, ts1, ts2, ts3, ts4, rest, d.LastUsedSecretKeyInfo, d.Items, d.History, d.CurrentListName);
  }
}
