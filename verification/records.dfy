/**
 * The decoded record kinds of the todo service, their storage envelope
 * (`TodoRecordStorage<T>`), the shape of a downloaded transaction, and the
 * collaborators the replay engine consumes (key registry, decoders,
 * decryption), which appear here as plain functions.
 */
module Records {
  import opened Wrappers
  import opened Packing

  /** `Operation.InvalidTransactionId`: the "no transaction" sentinel. */
  const InvalidTransactionId: int := -1
  /** `Operation.FirstTransactionId`: the lowest id a download may start from. */
  const FirstTransactionId: int := 0

  /** Group indices that tell the record kind of a data transaction (`TodoServiceInfo`). */
  const TodoListNameIndex: int := 1
  const TodoTaskIndex: int := 2
  const TodoTaskStatusIndex: int := 3

  function Max(a: int, b: int): int { if a >= b then a else b }

  datatype TaskStatusType = Open | Closed | Deleted

  datatype Record =
    | ListName(Name: string)
    | Task(Text: string)
    | TaskStatus(Status: TaskStatusType)

  /** A decoded record with its provenance; immutable once built. */
  datatype RecordStorage = RecordStorage(
    Record: Record,
    TransactionId: int,
    AccountId: int,
    Timestamp: int,
    TargetedTransactionId: int,
    GroupId: int)

  /** `TodoRecordStorage<TodoListNameRecord>`, `<TodoTaskRecord>`, `<TodoTaskStatusRecord>`. */
  type NameStorage = s: RecordStorage | s.Record.ListName?
    witness RecordStorage(ListName(""), 0, 0, 0, 0, 0)
  type TaskStorage = s: RecordStorage | s.Record.Task?
    witness RecordStorage(Task(""), 0, 0, 0, 0, 0)
  type StatusStorage = s: RecordStorage | s.Record.TaskStatus?
    witness RecordStorage(TaskStatus(Open), 0, 0, 0, 0, 0)

  /** Identifies the symmetric key a record was encrypted with; only `SecretId` is consulted. */
  datatype SecretKeyInfo = SecretKeyInfo(SecretId: nat, Descriptor: string)

  type SecretKey = seq<bv8>

  /** The parsed (still encrypted) envelope of a task or list-name record. */
  datatype EncryptedRecord = EncryptedRecord(KeyInfo: SecretKeyInfo, Ciphertext: seq<bv8>)

  /** The `Group` feature of a transaction. */
  datatype GroupFeature = GroupFeature(GroupId: int, GroupIndex: int)

  /**
   * A downloaded transaction, reduced to what the replay engine reads:
   * `Data` is the first data item's payload (absent for group administration
   * transactions), `Targets` the `TransactionTarget` feature when present.
   */
  datatype Transaction = Transaction(
    TransactionId: int,
    AccountId: int,
    Timestamp: int,
    Group: Option<GroupFeature>,
    Targets: Option<seq<int>>,
    Data: Option<seq<bv8>>)

  /**
   * The collaborators of the replay engine:
   *  - `SecretKeys(listId, secretId)`: the candidate keys the service node holds
   *    for the list's index and a secret id (`ServiceNode.GetSecretKeys`);
   *  - `DecodeStatus`: unpacks an (unencrypted) task-status record, `None` if it throws;
   *  - `ParseEnvelope`: unpacks an `EncrytpedRecord<T>`, `None` if it throws;
   *  - `Decrypt`: `EncrytpedRecord<T>.GetRecord(key)`, the record's text or `None`.
   */
  datatype Env = Env(
    SecretKeys: (int, nat) -> seq<SecretKey>,
    DecodeStatus: seq<bv8> -> Option<TaskStatusType>,
    ParseEnvelope: seq<bv8> -> Option<EncryptedRecord>,
    Decrypt: (EncryptedRecord, SecretKey) -> Option<string>)

  // ---- pack layout of a record storage -------------------------------------

  /** Record type tags (`TodoRecordTypes`) and status codes (`TodoTaskStatusTypes`). */
  const ListNameRecordType: int := 0
  const TaskRecordType: int := 1
  const TaskStatusRecordType: int := 2

  function StatusCode(s: TaskStatusType): int {
    match s
    case Open => 0
    case Closed => 1
    case Deleted => 2
  }

  function StatusOfCode(c: int): (r: Option<TaskStatusType>)
    ensures r.Some? <==> 0 <= c <= 2
    ensures r.Some? ==> StatusCode(r.value) == c
  {
    if c == 0 then Some(Open) else if c == 1 then Some(Closed) else if c == 2 then Some(Deleted) else None
  }

  function EncodeRecord(r: Record): seq<Token> {
    match r
    case ListName(n) => [Byte(ListNameRecordType), Text(n)]
    case Task(t) => [Byte(TaskRecordType), Text(t)]
    case TaskStatus(s) => [Byte(TaskStatusRecordType), Byte(StatusCode(s))]
  }

  function DecodeRecord(tag: Token, body: Token): Option<Record> {
    if tag == Byte(ListNameRecordType) && body.Text? then Some(ListName(body.TextValue))
    else if tag == Byte(TaskRecordType) && body.Text? then Some(Task(body.TextValue))
    else if tag == Byte(TaskStatusRecordType) && body.Byte? then
      match StatusOfCode(body.ByteValue)
      case Some(s) => Some(TaskStatus(s))
      case None => None
    else None
  }

  /** A record storage: its record (type tag first), then its five provenance fields. */
  function EncodeStorage(s: RecordStorage): (r: seq<Token>)
    ensures |r| == 7
  {
    EncodeRecord(s.Record)
      + [Long(s.TransactionId), Long(s.AccountId), Long(s.Timestamp), Long(s.TargetedTransactionId), Long(s.GroupId)]
  }

  function DecodeStorage(ts: seq<Token>): Option<(RecordStorage, seq<Token>)> {
    if |ts| < 7 || !(ts[2].Long? && ts[3].Long? && ts[4].Long? && ts[5].Long? && ts[6].Long?) then None
    else
      match DecodeRecord(ts[0], ts[1])
      case None => None
      case Some(r) =>
        Some((RecordStorage(r, ts[2].LongValue, ts[3].LongValue, ts[4].LongValue, ts[5].LongValue, ts[6].LongValue),
              ts[7..]))
  }

  lemma StorageRoundTrip(s: RecordStorage, rest: seq<Token>)
    ensures DecodeStorage(EncodeStorage(s) + rest) == Some((s, rest))
  {
    var ts := EncodeStorage(s) + rest;
    assert ts[7..] == rest;
    match s.Record {
      case TaskStatus(st) =>
        assert StatusOfCode(StatusCode(st)) == Some(st);
      case _ =>
    }
  }


  function DecodeTaskStorage(ts: seq<Token>): (r: Option<(TaskStorage, seq<Token>)>) {
    match DecodeStorage(ts)
    case Some((s, rest)) => if s.Record.Task? then Some((s, rest)) else None
    case None => None
  }

  function DecodeStatusStorage(ts: seq<Token>): (r: Option<(StatusStorage, seq<Token>)>) {
    match DecodeStorage(ts)
    case Some((s, rest)) => if s.Record.TaskStatus? then Some((s, rest)) else None
    case None => None
  }

  /** The pack of a status storage, as the encoder paired with `DecodeStatusStorage`. */
  function EncodeStatusStorage(s: StatusStorage): seq<Token> {
    EncodeStorage(s)
  }

  /** The pack of a list-name storage, as the encoder paired with `DecodeNameStorage`. */
  function EncodeNameStorage(s: NameStorage): seq<Token> {
    EncodeStorage(s)
  }

  function DecodeNameStorage(ts: seq<Token>): (r: Option<(NameStorage, seq<Token>)>) {
    match DecodeStorage(ts)
    case Some((s, rest)) => if s.Record.ListName? then Some((s, rest)) else None
    case None => None
  }

  /** The typed decoders accept exactly what `EncodeStorage` wrote for a record of their kind. */
  lemma TypedStorageRoundTrip(s: RecordStorage, rest: seq<Token>)
    ensures s.Record.Task? ==> DecodeTaskStorage(EncodeStorage(s) + rest) == Some((s, rest))
    ensures s.Record.TaskStatus? ==> DecodeStatusStorage(EncodeStorage(s) + rest) == Some((s, rest))
    ensures s.Record.ListName? ==> DecodeNameStorage(EncodeStorage(s) + rest) == Some((s, rest))
  {
    StorageRoundTrip(s, rest);
  }

  lemma StatusRoundTrips(s: StatusStorage)
    ensures RoundTrips(s, EncodeStatusStorage, DecodeStatusStorage)
  {
    forall tail ensures DecodeStatusStorage(EncodeStatusStorage(s) + tail) == Some((s, tail)) {
      TypedStorageRoundTrip(s, tail);
    }
  }

  lemma NameRoundTrips(s: NameStorage)
    ensures RoundTrips(s, EncodeNameStorage, DecodeNameStorage)
  {
    forall tail ensures DecodeNameStorage(EncodeNameStorage(s) + tail) == Some((s, tail)) {
      TypedStorageRoundTrip(s, tail);
    }
  }
}
