/**
 * The collection of todo lists of the signed-in account (`Todo`), keyed by
 * list (group) id, loaded fail-open from the local cache.
 */
module Todos {
  import opened Wrappers
  import opened Packing
  import opened Records
  import opened TodoLists
  import opened TodoListProperties

  function ListIdOf(d: ListData): int { d.ListId }

  /** `Todo.Pack`: the dictionary of lists, each under its id. */
  ghost function EncodeTodo(lists: map<int, ListData>): seq<Token> {
    EncodeMap(lists, EncodeList)
  }

  /**
   * What the load constructor keeps from the cache file: nothing when there
   * is no file or when unpacking it throws at any point, else every list.
   */
  function LoadSpec(file: Option<seq<Token>>): (r: map<int, ListData>)
    ensures file.None? ==> r == map[]
    ensures file.Some? && DecodeMap(file.value, DecodeList, ListIdOf).None? ==> r == map[]
    ensures forall id :: id in r ==> r[id].ListId == id && Unpacked(r[id])
  {
    if file.None? then map[]
    else
      match DecodeMap(file.value, DecodeList, ListIdOf)
      case None => map[]
      case Some((lists, _)) =>
        DecodedMapKeyed(file.value, DecodeList, ListIdOf);
        DecodedListsWellKeyed(file.value);
        lists
  }

  /** A list as unpacking leaves it: tasks under their ids, no key missing. */
  ghost predicate Unpacked(d: ListData) {
    d.WellKeyed() && d.MissingSecretKeys == map[]
  }

  /** Every list of an unpacked collection is itself as unpacked. */
  lemma DecodedListsWellKeyed(ts: seq<Token>)
    ensures DecodeMap(ts, DecodeList, ListIdOf).Some? ==>
      var lists := DecodeMap(ts, DecodeList, ListIdOf).value.0;
      forall id :: id in lists ==> Unpacked(lists[id])
  {
    forall t | DecodeList(t).Some? ensures Unpacked(DecodeList(t).value.0) {
      DecodedListWellKeyed(t);
    }
    DecodedMapAll(ts, DecodeList, ListIdOf, Unpacked);
  }

  /** The list a packed list unpacks to: the same list with no key missing. */
  function Reloaded(d: ListData): (r: ListData)
    ensures r.MissingSecretKeys == map[]
    ensures d.MissingSecretKeys == map[] ==> r == d
  {
    d.(MissingSecretKeys := map[])
  }

  /** Each well-keyed list unpacks from its own packing to its reloaded form, whatever follows it. */
  lemma ListsDecode(lists: map<int, ListData>)
    requires forall id :: id in lists ==> lists[id].WellKeyed()
    ensures forall id :: id in lists ==> DecodesTo(lists[id], Reloaded(lists[id]), EncodeList, DecodeList)
  {
    forall id | id in lists ensures DecodesTo(lists[id], Reloaded(lists[id]), EncodeList, DecodeList) {
      var d := lists[id];
      forall tail ensures DecodeList(EncodeList(d) + tail) == Some((Reloaded(d), tail)) {
        ListRoundTrip(d, tail);
      }
    }
  }

  /** Loading a file that unpacks completely keeps every unpacked list. */
  lemma LoadOfDecoded(ts: seq<Token>, lists: map<int, ListData>, rest: seq<Token>)
    requires DecodeMap(ts, DecodeList, ListIdOf) == Some((lists, rest))
    ensures LoadSpec(Some(ts)) == lists
  {
  }

  /**
   * A saved collection of well-keyed lists under their own ids loads back
   * with every list, each with no key missing; a collection saved with no
   * key missing loads back unchanged.
   */
  lemma LoadRoundTrip(lists: map<int, ListData>)
    requires forall id :: id in lists ==> lists[id].ListId == id && lists[id].WellKeyed()
    ensures LoadSpec(Some(EncodeTodo(lists))) == map id | id in lists :: Reloaded(lists[id])
    ensures (forall id :: id in lists ==> lists[id].MissingSecretKeys == map[]) ==> LoadSpec(Some(EncodeTodo(lists))) == lists
  {
    var img := map id | id in lists :: Reloaded(lists[id]);
    ListsDecode(lists);
    forall id | id in lists ensures ListIdOf(img[id]) == id && DecodesTo(lists[id], img[id], EncodeList, DecodeList) {
    }
    var ts := EncodeTodo(lists);
    MapDecodes(lists, img, EncodeList, DecodeList, ListIdOf, []);
    assert ts + [] == ts;
    LoadOfDecoded(ts, img, []);
    if forall id :: id in lists ==> lists[id].MissingSecretKeys == map[] {
      ReloadedUnchanged(lists);
    }
  }

  /** Reloading lists with no key missing changes none of them. */
  lemma ReloadedUnchanged(lists: map<int, ListData>)
    requires forall id :: id in lists ==> lists[id].MissingSecretKeys == map[]
    ensures (map id | id in lists :: Reloaded(lists[id])) == lists
  {
    var img := map id | id in lists :: Reloaded(lists[id]);
    assert img.Keys == lists.Keys;
    forall id | id in lists ensures img[id] == lists[id] {
      assert Reloaded(lists[id]) == lists[id];
    }
  }

  /** The list object `l` is valid and holds exactly the list `d`. */
  ghost predicate Holds(l: TodoList, d: ListData)
    reads l, l.Items.Values
  {
    l.ListId == d.ListId && l.Valid() && l.Snapshot() == d
  }

  method NewList(d: ListData) returns (list: TodoList)
    requires Unpacked(d)
    ensures fresh(list) && Holds(list, d)
  {
    list := new TodoList.FromData(d);
    assert d.(MissingSecretKeys := map[]) == d;
  }

  /** `lists` with a new object for the list under `id` added; the other objects still hold their lists. */
  method AddNewList(lists: map<int, TodoList>, loaded: map<int, ListData>, id: int) returns (r: map<int, TodoList>)
    requires id in loaded && loaded[id].ListId == id && Unpacked(loaded[id])
    requires forall k :: k in lists ==> k in loaded && Holds(lists[k], loaded[k])
    ensures id in r && r == lists[id := r[id]] && fresh(r[id])
    ensures forall k :: k in r ==> Holds(r[k], loaded[k])
  {
    var list := NewList(loaded[id]);
    r := lists[id := list];
  }

  /** One new list object per unpacked list, under the same id. */
  method NewLists(loaded: map<int, ListData>) returns (lists: map<int, TodoList>)
    requires forall id :: id in loaded ==> loaded[id].ListId == id && Unpacked(loaded[id])
    ensures lists.Keys == loaded.Keys
    ensures forall id :: id in lists ==> Holds(lists[id], loaded[id])
    ensures forall id :: id in lists ==> fresh(lists[id])
  {
    lists := map[];
    var rest := loaded.Keys;
    while rest != {}
      invariant rest <= loaded.Keys
      invariant lists.Keys == loaded.Keys - rest
      invariant forall id :: id in lists ==> Holds(lists[id], loaded[id])
      invariant forall id :: id in lists ==> fresh(lists[id])
      decreases |rest|
    {
      Collections.HasElement(rest);
      var id :| id in rest;
      lists := AddNewList(lists, loaded, id);
      rest := rest - {id};
    }
  }

  class Todo {
    var Lists: map<int, TodoList>

    /** Every list is stored under its own id and is itself valid. */
    ghost predicate Valid()
      reads this, Lists.Values
    {
      forall id :: id in Lists ==> Lists[id].ListId == id && Lists[id].Valid()
    }

    /** The load constructor, given the cache file's content (`None`: no file). */
    constructor Load(file: Option<seq<Token>>)
      ensures Valid()
      ensures Lists.Keys == LoadSpec(file).Keys
      ensures forall id :: id in Lists ==> Lists[id].Snapshot() == LoadSpec(file)[id]
      ensures forall id :: id in Lists ==> fresh(Lists[id])
    {
      var lists := NewLists(LoadSpec(file));
      Lists := lists;
    }

    /** `GetTodoList(groupId)`: the list stored under the id, `None` for null. */
    function GetTodoList(id: int): (r: Option<TodoList>)
      requires Valid()
      reads this, Lists.Values
      ensures r.Some? <==> id in Lists
      ensures r.Some? ==> r.value in Lists.Values && r.value.ListId == id
    {
      if id in Lists then Some(Lists[id]) else None
    }

    /** `AddGroupId(groupId)`: get the list with that id, creating an empty one if there is none. */
    method AddGroupId(id: int) returns (list: TodoList)
      requires Valid()
      modifies this
      ensures Valid()
      ensures id in Lists && list == Lists[id] && list.ListId == id
      ensures old(id in Lists) ==> Lists == old(Lists)
      ensures old(id !in Lists) ==>
        && Lists == old(Lists)[id := list]
        && fresh(list)
        && list.Snapshot() == EmptyList(id, InvalidTransactionId)
    {
      if id in Lists {
        list := Lists[id];
      } else {
        list := new TodoList(id, InvalidTransactionId);
        Lists := Lists[id := list];
      }
    }

    /**
     * `QueryTodoListIds`, given the downloaded group ids (`None` when the
     * download fails): adds an empty list for every new id.
     */
    method QueryTodoListIds(groupIds: Option<seq<int>>) returns (ok: bool)
      requires Valid()
      modifies this
      ensures Valid()
      ensures ok <==> groupIds.Some?
      ensures groupIds.None? ==> Lists == old(Lists)
      ensures groupIds.Some? ==> Lists.Keys == old(Lists.Keys) + (set id | id in groupIds.value)
      ensures forall id :: id in old(Lists) ==> id in Lists && Lists[id] == old(Lists[id])
      ensures forall id :: id in Lists && id !in old(Lists) ==>
        fresh(Lists[id]) && Lists[id].Snapshot() == EmptyList(id, InvalidTransactionId)
    {
      if groupIds.None? {
        return false;
      }
      var ids := groupIds.value;
      for i := 0 to |ids|
        invariant Valid()
        invariant Lists.Keys == old(Lists.Keys) + (set id | id in ids[..i])
        invariant forall id :: id in old(Lists) ==> id in Lists && Lists[id] == old(Lists[id])
        invariant forall id :: id in Lists && id !in old(Lists) ==>
          fresh(Lists[id]) && Lists[id].Snapshot() == EmptyList(id, InvalidTransactionId)
      {
        var _ := AddGroupId(ids[i]);
        assert ids[..i + 1] == ids[..i] + [ids[i]];
      }
      assert ids[..|ids|] == ids;
      return true;
    }
  }
}
