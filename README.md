# copacabana: a Dafny model of the collection routes

copacabana is a small REST server that keeps JSON resources in Redis. Every
change is broadcast on a socket.io event channel. A pair
`/:namespace/:collection` names a collection. It is stored as a Redis sorted
set under the key `namespace:collection`. Each member is the text
`JSON.stringify(object)` and its score is the resource id.

This project models the five collection routes of `copacabana.js`. They are
List, Create, Update, Delete and Get. The model follows the code as written.

- `keys.dfy` (module `Keys`) models the key derivation `[namespace, collection].join(':')`. It also reads a key back, which proves derivation injective for namespaces without ':'.
- `sorted_set.dfy` (module `SortedSet`) models the Redis sorted set as a sequence of `(score, member)` entries in Redis order: by score, then by member. It covers ZADD, ZREM, ZCARD, ZRANGE and ZRANGEBYSCORE; ZRANGEBYSCORE is used only by the corrected lookup. There are lemmas that ZADD and ZREM keep the set well formed. ZADD is the only well-formed set with its elements.
- `resources.dfy` (module `Resources`) models JSON values and request bodies.
  - `object.id = …` is `WithId`.
  - `JSON.stringify` is a parameter that must be injective and give text starting with `{`.
  - The decimal text of a path id is `IntText`. Its coercion back to a number is `ParseInt`.
- `handlers.dfy` (module `Handlers`) models each route as a step function. A step maps the set at the route's key to the new set, the emitted events and the response. The lemmas say what each step does. Corrected variants sit next to the as-written steps; see Findings.
- `runs.dfy` (module `Runs`) covers sequences of requests on one key:
  - ids 1, 2, 3, … from a run of creates;
  - when the rank lookup finds the resource with a given id;
  - how one update breaks that.
- `store.dfy` (module `CollectionStore`) holds class `Store`. Its fields are the Redis database `db` (key to sorted set) and the event log `events`. It has one method per route. Each method runs the handler's commands in order. It is proved to leave the state, and to answer, as the matching step function says.

Not-found tests are `!result` on a ZRANGE reply. The model keeps the reply as
JavaScript sees it (`JsReply`). ZRANGE always replies with an array, and an
array is truthy even when empty.

A store error on a request's first command answers `next(err)` (`StoreError`).
It changes nothing. Each method takes this as a `fault` flag.

The corrected variants in Findings differ from the code in one respect each:
- `GetCheckedStep` and `UpdateCheckedStep` keep the rank lookup and only test for an empty reply (404).
- `DeleteFixedStep` keeps the rank lookup, tests for an empty reply, and calls ZREM with the member the lookup found.
- `GetByScoreStep` is the one lookup by score (ZRANGEBYSCORE id id).
- `CreateCountedStep` takes its id from a counter kept apart from the set.

The code itself:
- ids are `ZCARD + 1`;
- lookups go by rank;
- Update only adds;
- Delete calls ZREM with the id as member;
- there is no validation of bodies or ids.

## Model

| member | source | states |
|---|---|---|
| Keys.CollectionKey | copacabana.js:39 | The key is namespace, then ':', then collection; its length is the sum of both plus one. |
| Keys.SplitKey | copacabana.js:39 | Reading a key back cuts at the first ':'. It fails exactly when there is no ':'. A result has a colon-free namespace and derives the same key again. |
| Keys.KeyRoundTrip | copacabana.js:39 | For a namespace without ':', splitting the derived key gives back the namespace and the collection. |
| Keys.KeyInjective | copacabana.js:53 | Two pairs whose namespaces hold no ':' share a key only if they are the same pair. The same derivation is used at lines 39, 53, 75, 99 and 123. |
| Keys.KeyCollision | copacabana.js:39 | Without that restriction, ("app:todo", "list") and ("app", "todo:list") share one key. |
| Resources.WithId | copacabana.js:64 | `object.id = v` sets the id field to v, keeps every other field, and adds no field besides "id". |
| Resources.WithIdOverrides | copacabana.js:89 | The fields after `object.id = v` are the same whether or not the body carried an id of its own: the caller's id value is overwritten. |
| Resources.IntText | copacabana.js:89 | The path id as text is non-empty and starts with '-' or a digit, never with '{'. |
| Resources.ParseInt | copacabana.js:82 | The value of the decimal path text that `req.params.id - 1` coerces, read exactly: text without a leading '-' gives a number >= 0, text with one a number <= 0. IntTextRoundTrip is its inverse law. Exact only for ids of magnitude up to 2^53 (see Left out). |
| Resources.NatTextRoundTrip | copacabana.js:82 | Parsing the decimal text of a natural number gives the number back. |
| Resources.IntTextRoundTrip | copacabana.js:82 | Reading the path text back gives the path id, so `req.params.id - 1` is id - 1 (for ids within 2^53, where JavaScript's arithmetic is exact). |
| SortedSet.ZCardCountsMembers | copacabana.js:60 | On a well-formed set, ZCARD is the number of distinct members. |
| SortedSet.ZRange | copacabana.js:43 | Every reply member is in the set and the reply is no longer than it. 0..-1 gives all members in rank order. A single index i gives the member at rank i, counted from the end when negative, or nothing when out of range. |
| SortedSet.ZAdd | copacabana.js:66 | The new set holds the old elements of other members plus the given member at the given score. |
| SortedSet.ZAddSpec | copacabana.js:66 | ZADD keeps the set sorted with distinct members. It grows by one exactly when the member is new. It is the only well-formed set with those elements. |
| SortedSet.ZRem | copacabana.js:113 | ZREM removes exactly the elements of that member. A missing member leaves the set unchanged. |
| SortedSet.ZRemSpec | copacabana.js:113 | ZREM keeps the set well formed and shrinks it by one exactly when the member was present. |
| SortedSet.ZRemAtRank | copacabana.js:113 | Removing the member at rank k leaves the other elements in their order. |
| SortedSet.InsertValid | copacabana.js:66 | Inserting a new member in Redis order keeps the set sorted with distinct members. |
| SortedSet.ValidDetermined | copacabana.js:66 | Two well-formed sets with the same elements are equal: the Redis order fixes the sequence. |
| SortedSet.ZRangeByScore | copacabana.js:129 | A member is in the reply exactly when some element of it has a score in [min, max]. Used by the corrected lookup. |
| Handlers.RankLookup | copacabana.js:82 | The lookup `zrange(key, id - 1, id - 1)` (also at lines 105 and 129) answers the member at rank id - 1 for id in 1..n, the member at rank n + id - 1 counted from the end for id in -n+1..0, and [] otherwise. Its reply is an array, which `!result` (lines 86, 109 and 133) never finds falsy. |
| Handlers.ListStep | copacabana.js:43-47 | List answers 200 with the members and changes neither the set nor the event log. |
| Handlers.ListInScoreOrder | copacabana.js:43-47 | List answers every member in rank order, with scores ascending; a never-written key answers []. |
| Handlers.CreateStep | copacabana.js:60-69 | Create answers 201 with the body (`req.body \|\| {}`, line 54) plus id ZCARD + 1, and emits one POST event with the same object. |
| Handlers.UpdateStep | copacabana.js:82-93 | Update never answers 404: it answers 200 with the body (`req.body \|\| {}`, line 76) and id set to the path id as text, and emits one PUT event with that object. The new set holds exactly the old elements of other members plus that object's text at score id. |
| Handlers.DeleteStep | copacabana.js:105-112 | Delete as written is the ReferenceError from line 112 for every id, with the set unchanged and no event: the 404 branch never runs. |
| Handlers.DeleteIntendedStep | copacabana.js:113-116 | Without the exception, delete answers 204 with the rank lookup's reply, emits DELETE with it, and leaves exactly the elements whose member is not the id text. |
| Handlers.GetStep | copacabana.js:129-136 | Get never answers 404 and changes nothing: it answers 200 with the rank id - 1 reply, which by RankLookup is the member at rank id - 1 for id in 1..n. |
| Handlers.CreateSpec | copacabana.js:60-69 | Create stores that object's text at score ZCARD + 1 and keeps every other element. It grows the set by one when the text is new. The response and the one POST event carry the same object. |
| Handlers.UpdateSpec | copacabana.js:89-93 | Update forces id to the path id as text and stores the object at score id. Nothing is removed: the set grows by one exactly when the text is new and otherwise keeps its size. It answers 200 and emits one PUT event with the same object. |
| Handlers.DeleteNeverRemoves | copacabana.js:105-112 | Delete as written throws after the lookup for any id. It removes nothing and emits nothing. |
| Handlers.DeleteIntendedRemovesNothing | copacabana.js:113-116 | Lines 113-116 without the exception leave the set unchanged, because no object text equals the id text. They still answer 204 and emit DELETE with the lookup reply. |
| Handlers.GetMissingAnswersEmpty | copacabana.js:133-134 | Get of an id past the end answers 200 []: the 404 branch never runs. |
| Handlers.UpdateMissingStillWrites | copacabana.js:86-90 | PUT of an id past the end finds an empty reply and still stores a new element at that score. |
| Handlers.GetZeroAnswersLast | copacabana.js:129 | Get of id 0 looks up rank -1 and answers the last element. |
| Handlers.GetCheckedStep | copacabana.js:133-134 | The corrected Get (404 on an empty reply) never changes the set or the events. |
| Handlers.GetCheckedNotFound | copacabana.js:133-134 | The corrected Get answers 404 exactly when rank id - 1 is out of range, and otherwise the member at that rank. |
| Handlers.UpdateCheckedStep | copacabana.js:86-93 | The corrected Update changes nothing when it answers 404, and otherwise does exactly what the Update as written does. |
| Handlers.UpdateCheckedMissing | copacabana.js:86-87 | The corrected Update on an id past the end answers 404 and changes nothing. |
| Handlers.DeleteFixedStep | copacabana.js:109-116 | The corrected delete changes nothing when it answers 404. Otherwise it answers 204 with a non-empty reply, emits DELETE with that reply, and the member found is no longer in the set. |
| Handlers.DeleteFixedAtRank | copacabana.js:113-116 | For id in 1..n, the corrected delete cuts rank id - 1 out of the sequence, and answers and emits exactly that member. |
| Handlers.DeleteFixedSpec | copacabana.js:113-116 | The corrected delete answers 404 exactly when rank id - 1 is out of range, and then changes nothing. Otherwise it removes exactly the element at that rank and keeps the rest in order. It answers 204 and emits DELETE with the removed member. |
| Handlers.GetByScoreStep | copacabana.js:129 | The by-score Get never changes the set or the events. |
| Handlers.GetByScoreNotFound | copacabana.js:129-134 | The by-score Get answers 404 exactly when no element has score id. |
| Handlers.GetByScoreStable | copacabana.js:90 | A ZADD of another member at another score does not change what the by-score Get answers. |
| Handlers.GetByScoreStableRem | copacabana.js:113 | A ZREM of a member stored at another score does not change what the by-score Get answers. |
| Handlers.CreateCountedStep | copacabana.js:60-69 | The counted create answers 201 with the body plus id counter + 1, emits one POST event with it, and stores its text at that score. While the counter equals ZCARD it is exactly the Create as written. |
| Handlers.CreateCountedSpec | copacabana.js:60-64 | With ids from a counter that covers every score, the create stores its object at a score no other element holds. It keeps every other element, and the advanced counter covers the new set. |
| Handlers.IssuedPreserved | copacabana.js:90 | A ZADD at an issued id and any ZREM keep every score covered by the counter. |
| Runs.DenseRankIsScore | copacabana.js:129 | While the scores are exactly 1..n, the rank lookup of id answers the element with score id, the same as the by-score lookup. |
| Runs.CreateRun | copacabana.js:60-69 | A run of creates gives one response and one event per request. |
| Runs.CreateRunSet | copacabana.js:60-66 | A run of creates on a never-written key leaves the k-th created object's text at rank k - 1 and score k. |
| Runs.CreateRunReply | copacabana.js:64-69 | The k-th create of such a run answers 201 with its body plus id k + 1, and emits POST with the same object. |
| Runs.CreateRunFromEmpty | copacabana.js:60-69 | After n creates on a never-written key, the set is well formed with scores exactly 1..n. The ids handed out are 1, 2, 3, … in order, and every response and event carries its created object. |
| Runs.CreateRunLookup | copacabana.js:129-136 | After n creates on a never-written key, Get of each id 1..n answers the text created with that id, by rank and by score alike. |
| Runs.CreateRunNextId | copacabana.js:60-64 | After n creates on a never-written key, the next create gets id n + 1. |
| Runs.TwoCreates | copacabana.js:60-66 | Two creates on a never-written key leave exactly the texts of the objects with ids 1 and 2, at scores 1 and 2. |
| Runs.UpdateShiftsRanks | copacabana.js:90 | After two creates and a PUT of id 1, Get of id 2 no longer answers resource 2; Get of id 3 answers it. The next create is given id 4, skipping 3, and the by-score lookup of id 2 is unchanged. |
| Runs.CreateCollidesAfterUpdate | copacabana.js:60-64 | After two creates and a PUT of id 4, the next create is also given id 4. Two elements then share score 4. |
| CollectionStore.Store.constructor | copacabana.js:14 | A new store has an empty database and an empty event log, and is well formed. |
| CollectionStore.Store.SetAt | copacabana.js:43 | A key never written reads as the empty set; in a well-formed store every set is well formed. |
| CollectionStore.Store.List | copacabana.js:38-49 | Answers StoreError on a store fault and otherwise 200 with every member in rank order. It is a method without a modifies clause, so it changes neither the database nor the events. |
| CollectionStore.Store.Create | copacabana.js:52-72 | On a fault nothing changes. Otherwise only the collection's key changes, to the Create step's set. One POST event is appended. The response is 201 with id ZCARD + 1, and that object's text is stored at that score. |
| CollectionStore.Store.Update | copacabana.js:74-96 | On a fault nothing changes. Otherwise only the collection's key changes, to the Update step's set. One PUT event with the answered object is appended. The object (id forced to the path id) is stored at score id, and the set does not shrink. |
| CollectionStore.Store.Delete | copacabana.js:98-119 | Answers StoreError on a fault, otherwise the ReferenceError thrown at line 112, never 404. It changes nothing. |
| CollectionStore.Store.DeleteIntended | copacabana.js:113-116 | The delete without the exception: the set at the key is left as it was, one DELETE event with the lookup reply is appended, and the answer is 204. |
| CollectionStore.Store.Get | copacabana.js:122-139 | Answers StoreError on a fault, otherwise the Get step's response. That is the member at rank id - 1 for id in 1..n, and 200 [] past the end. It changes nothing. |

## Left out

- Server setup, plugins, `listen` and the welcome route (copacabana.js:1-35): HTTP transport with no store logic.
- `console.log` with timestamps: output only.
- socket.io delivery and the `connection` greeting (copacabana.js:141-143): the model keeps only the log of emitted events, with no event name and no subscribers.
- The order of asynchronous replies: store commands are atomic and run in the order written. The model does not capture that the ZADD at lines 66 and 90 and the ZREM at line 113 are not awaited. The event and the response go out whatever those commands reply; the model treats them as succeeding.
- Concurrent requests on the same key, e.g. two creates reading the same ZCARD: sequential model only.
- The exception thrown at copacabana.js:112 is the outcome `ReferenceError`. What Node and restify then do with an exception thrown in a Redis callback (a crashed process, a dropped connection) is not modelled.
- Store faults: only the first command of each handler can fail (the `fault` flag), as in the code, which checks only that reply.
- `JSON.stringify`: an injective function whose text starts with `{`, with no encoding details. JSON numbers are integers.
- Path ids: an integer parameter whose canonical decimal text is `req.params.id`. Non-numeric or non-canonical texts, NaN from the coercion, and fractional ids are not modelled.
- Resources.ParseInt: reads the path text exactly, as an unbounded integer. JavaScript's `req.params.id - 1` is a double, so it is exact only for magnitudes up to 2^53; beyond that it rounds (`"9007199254740994" - 1` is 9007199254740992). A rank outside Redis's 64-bit range makes ZRANGE reply with an error, which the handlers answer with `next(err)` (lines 83-84, 106-107, 130-131). The model covers that reply only through the `fault` flag. Its step functions, given such an id without a fault, answer as for any id past the end (GetMissingAnswersEmpty, UpdateMissingStillWrites).
- Handlers.UpdateStep: scores are exact integers. Redis stores a sorted-set score as a double, so the score text of the ZADD at line 90 is exact only within 2^53; beyond that it rounds (`ZADD key 9007199254740993 m` stores 9007199254740992). The `Entry(id, …)` stated by UpdateStep, UpdateSpec and Store.Update holds for ids of magnitude up to 2^53 only.
- Resources.WithIdOverrides: property order is not modelled. A Resource is a field map and `JSON.stringify` a function of it, but the stored text lists properties in insertion order: `object.id = v` keeps "id" in place when the body had one and appends it otherwise. Two texts that differ only in that order, e.g. `{"id":"1","title":"a"}` and `{"title":"a","id":"1"}`, are one member in the model and two members in Redis.
- `req.body`: an optional object; bodies that are JSON values other than objects are not modelled.
- Redis deleting a key whose set becomes empty: the model keeps an empty set at the key, and `SetAt` reads both as empty.
- SortedSet.ZRange: its contract states the full range and the single-index ranges the handlers use, not every other start/stop pair.
- Runs.CreateRunFromEmpty: proved for a never-written key only. A run that starts from a non-empty set gets ids from that set's size and is covered by CreateSpec one step at a time.
- The Backbone client files under `example/`: UI code that consumes the API.

## Findings

| source | as written | input that shows it | evidently intended | confidence | as-written member | corrected member |
|---|---|---|---|---|---|---|
| copacabana.js:133 | `!result` on the ZRANGE reply, which is always an array and so always truthy | GET of id 5 on a collection with 2 resources answers 200 with [] | 404 when the lookup found nothing | high (not executed) | Handlers.GetMissingAnswersEmpty | Handlers.GetCheckedNotFound |
| copacabana.js:86 | the same `!result` test in Update | PUT of id 4 on a collection with 2 resources answers 200 and stores a new element at score 4 | 404 and no change | high (not executed) | Handlers.UpdateMissingStillWrites | Handlers.UpdateCheckedMissing |
| copacabana.js:112 | `object.id = req.params.id` in a handler that declares no `object` | any DELETE that reaches the lookup's callback throws a ReferenceError | delete the resource found, answer 204 | high (not executed) | Handlers.DeleteNeverRemoves | Handlers.DeleteFixedSpec |
| copacabana.js:113 | `zrem(key, req.params.id)` removes by member, and the members are object texts | DELETE of id 1 after one create (if line 112 did not throw) removes nothing but answers 204 | remove the element found by the lookup | high (not executed) | Handlers.DeleteIntendedRemovesNothing | Handlers.DeleteFixedSpec |
| copacabana.js:129 | "by id" lookup is ZRANGE at rank id - 1 | create, create, PUT id 1: GET of id 2 then answers a score-1 element, and GET of id 3 answers resource 2 | look up by score id (ZRANGEBYSCORE id id) | high (not executed) | Runs.UpdateShiftsRanks | Handlers.GetByScoreStable |
| copacabana.js:129 | rank id - 1 is negative for id <= 0, and Redis counts negative ranks from the end | GET of id 0 on a non-empty collection answers its last element | 404 for an id never issued | high (not executed) | Handlers.GetZeroAnswersLast | Handlers.GetByScoreNotFound |
| copacabana.js:64 | the new id is ZCARD + 1 | create, create, PUT id 4, create: the last create is also given id 4 | an id no stored resource has, e.g. from a counter | high (not executed) | Runs.CreateCollidesAfterUpdate | Handlers.CreateCountedSpec |
