/** The server's state and its five collection routes as methods. The Redis
    database is a map from key to sorted set and `io.sockets.emit` appends
    to an event log. Each method performs its handler's commands one after
    another and is proved to leave the state and answer exactly as the step
    function of module Handlers says; the lemmas about the step functions
    then carry over to the store.

    A request whose first storage command replies with an error (the
    `fault` argument) is answered with `next(err)` and changes nothing. */
module CollectionStore {

  import opened Wrappers
  import opened Keys
  import opened SortedSet
  import opened Resources
  import opened Handlers

  class Store {
    /** The Redis database: key to sorted set. */
    var db: map<string, ZSet>
    /** Everything emitted on the event channel, oldest first. */
    var events: seq<Event>
    /** `JSON.stringify` on objects. */
    const serialize: Resource -> string

    /** Every stored set is a well-formed sorted set of object texts. */
    ghost predicate Valid()
      reads this
    {
      && IsSerializer(serialize)
      && forall key :: key in db ==> SortedSet.Valid(db[key]) && ObjectMembers(db[key])
    }

    /** The set at a key; a key never written reads as the empty set, as in
        Redis. */
    function SetAt(key: string): (z: ZSet)
      reads this
      ensures Valid() ==> SortedSet.Valid(z) && ObjectMembers(z)
      ensures key !in db ==> z == []
    {
      if key in db then db[key] else []
    }

    constructor(serialize: Resource -> string)
      requires IsSerializer(serialize)
      ensures Valid()
      ensures db == map[] && events == [] && this.serialize == serialize
    {
      db := map[];
      events := [];
      this.serialize := serialize;
    }

    /** GET /:namespace/:collection */
    method List(namespace: string, collection: string, fault: bool) returns (response: Response)
      requires Valid()
      ensures response == if fault then StoreError else ListStep(SetAt(CollectionKey(namespace, collection))).response
      ensures !fault ==> response == Success(200, Items(Members(SetAt(CollectionKey(namespace, collection)))))
    {
      var key := CollectionKey(namespace, collection);
      if fault {
        return StoreError;
      }
      var result := ZRange(SetAt(key), 0, -1);
      response := Success(200, Items(result));
    }

    /** POST /:namespace/:collection */
    method Create(namespace: string, collection: string, body: Option<Resource>, fault: bool) returns (response: Response)
      requires Valid()
      modifies this
      ensures Valid()
      ensures var key := CollectionKey(namespace, collection);
        var st := CreateStep(old(SetAt(key)), body, serialize);
        if fault then db == old(db) && events == old(events) && response == StoreError
        else db == old(db)[key := st.zset] && events == old(events) + st.emitted && response == st.response
    ensures var key := CollectionKey(namespace, collection);
      !fault ==>
        && response.Success? && response.status == 201
        && response.data.obj.fields["id"] == Num(|old(SetAt(key))| + 1)
        && events == old(events) + [Event(POST, response.data)]
        && Entry(|old(SetAt(key))| + 1, serialize(response.data.obj)) in SetAt(key)
    {
      var key := CollectionKey(namespace, collection);
      var resource := RequestObject(body);
      if fault {
        return StoreError;
      }
      var z := SetAt(key);
      var result := ZCard(z);
      result := result + 1;
      resource := WithId(resource, Num(result));
      CreateSpec(z, body, serialize);
      db := db[key := ZAdd(z, result, serialize(resource))];
      events := events + [Event(POST, Object(resource))];
      response := Success(201, Object(resource));
    }

    /** PUT /:namespace/:collection/:id */
    method Update(namespace: string, collection: string, id: int, body: Option<Resource>, fault: bool)
      returns (response: Response)
      requires Valid()
      modifies this
      ensures Valid()
      ensures var key := CollectionKey(namespace, collection);
        var st := UpdateStep(old(SetAt(key)), id, body, serialize);
        if fault then db == old(db) && events == old(events) && response == StoreError
        else
          && db == old(db)[key := st.zset] && events == old(events) + st.emitted && response == st.response
    ensures var key := CollectionKey(namespace, collection);
      !fault ==>
        && response == Success(200, Object(WithId(RequestObject(body), Str(IntText(id)))))
        && events == old(events) + [Event(PUT, response.data)]
        && Entry(id, serialize(response.data.obj)) in SetAt(key)
        && |SetAt(key)| >= |old(SetAt(key))|
    {
      var key := CollectionKey(namespace, collection);
      var resource := RequestObject(body);
      if fault {
        return StoreError;
      }
      var z := SetAt(key);
      var result := RankLookup(z, id);
      if Falsy(result) {
        return NotFound;
      }
      resource := WithId(resource, Str(IntText(id)));
      UpdateSpec(z, id, body, serialize);
      assert |ZAdd(z, id, serialize(resource))| >= |z|;
      db := db[key := ZAdd(z, id, serialize(resource))];
      events := events + [Event(PUT, Object(resource))];
      response := Success(200, Object(resource));
    }

    /** DELETE /:namespace/:collection/:id. After the lookup the handler
        throws, so nothing is removed and nothing is emitted. */
    method Delete(namespace: string, collection: string, id: int, fault: bool) returns (response: Response)
      requires Valid()
      ensures response == if fault then StoreError else DeleteStep(SetAt(CollectionKey(namespace, collection)), id).response
      ensures response != NotFound
    {
      var key := CollectionKey(namespace, collection);
      if fault {
        return StoreError;
      }
      var result := RankLookup(SetAt(key), id);
      if Falsy(result) {
        return NotFound;
      }
      response := ReferenceError;
    }

    /** The delete handler as it would run without the exception at the
        stray `object.id` assignment: ZREM with the path id as member, then
        the DELETE event and 204 with the lookup reply. Since every member
        is an object text, the ZREM removes nothing. */
    method DeleteIntended(namespace: string, collection: string, id: int, fault: bool) returns (response: Response)
      requires Valid()
      modifies this
      ensures Valid()
      ensures var key := CollectionKey(namespace, collection);
        var st := DeleteIntendedStep(old(SetAt(key)), id);
        if fault then db == old(db) && events == old(events) && response == StoreError
        else
          && db == old(db)[key := st.zset] && events == old(events) + st.emitted && response == st.response
    ensures var key := CollectionKey(namespace, collection);
      !fault ==>
        && SetAt(key) == old(SetAt(key))
        && response == Success(204, Items(ZRange(old(SetAt(key)), id - 1, id - 1)))
        && events == old(events) + [Event(DELETE, response.data)]
    {
      var key := CollectionKey(namespace, collection);
      if fault {
        return StoreError;
      }
      var z := SetAt(key);
      var result := RankLookup(z, id);
      if Falsy(result) {
        return NotFound;
      }
      DeleteIntendedRemovesNothing(z, id);
      ZRemSpec(z, IntText(id));
      ZRemObjectMembers(z, IntText(id));
      db := db[key := ZRem(z, IntText(id))];
      events := events + [Event(DELETE, Items(result.items))];
      response := Success(204, Items(result.items));
    }

    /** GET /:namespace/:collection/:id */
    method Get(namespace: string, collection: string, id: int, fault: bool) returns (response: Response)
      requires Valid()
      ensures response == if fault then StoreError else GetStep(SetAt(CollectionKey(namespace, collection)), id).response
      ensures var z := SetAt(CollectionKey(namespace, collection));
        !fault && 1 <= id <= |z| ==> response == Success(200, Items([z[id - 1].member]))
      ensures var z := SetAt(CollectionKey(namespace, collection));
        !fault && id > |z| ==> response == Success(200, Items([]))
    {
      var key := CollectionKey(namespace, collection);
      if fault {
        return StoreError;
      }
      var result := RankLookup(SetAt(key), id);
      if Falsy(result) {
        return NotFound;
      }
      response := Success(200, Items(result.items));
    }
  }
}
