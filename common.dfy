/** Values shared by every part of the server model: optional values (a
    Mongoose `null` default, an absent request field), document ids, instants
    and the HTTP status codes the handlers answer with. */
module Common {

  datatype Option<T> = None | Some(value: T)

  /** The string form of a document's ObjectId (`doc._id.toString()`,
      `req.user.id`). Ids are compared, never interpreted. */
  type Id = string

  /** An instant produced by `new Date()`; the clock is a parameter. */
  type Time = nat

  /** The status codes the handlers send. */
  datatype HttpStatus =
    | Ok            // 200
    | Created       // 201
    | BadRequest    // 400
    | Unauthorized  // 401
    | Forbidden     // 403
    | NotFound      // 404
    | ServerError   // 500: a thrown error caught by the handler's `catch`

  /** `groups.reduce((acc, g) => { acc[g._id] = g.count; return acc; }, {})`
      over the rows of a `$group` stage: each row's key maps to its count, a
      later row overwriting an earlier one with the same key. */
  function IndexCounts<K(==)>(groups: seq<(K, nat)>): (m: map<K, nat>)
    ensures m.Keys == set i | 0 <= i < |groups| :: groups[i].0
    ensures forall i :: 0 <= i < |groups| && LastWithKey(groups, i) ==> m[groups[i].0] == groups[i].1
    decreases |groups|
  {
    if groups == [] then map[]
    else
      var init := groups[..|groups| - 1];
      var last := groups[|groups| - 1];
      var m := IndexCounts(init);
      assert forall i :: 0 <= i < |init| ==> init[i] == groups[i];
      assert (set i | 0 <= i < |groups| :: groups[i].0) == (set i | 0 <= i < |init| :: init[i].0) + {last.0};
      assert forall i :: 0 <= i < |init| && LastWithKey(groups, i) ==> LastWithKey(init, i);
      m[last.0 := last.1]
  }

  /** No row after row `i` has the same key. */
  predicate LastWithKey<K(==)>(groups: seq<(K, nat)>, i: nat)
    requires i < |groups|
  {
    forall j :: i < j < |groups| ==> groups[j].0 != groups[i].0
  }

  /** When the keys are distinct, as a `$group` stage makes them, every row's
      count is found under its key. */
  lemma IndexCountsDistinct<K>(groups: seq<(K, nat)>)
    requires forall i, j :: 0 <= i < j < |groups| ==> groups[i].0 != groups[j].0
    ensures forall i :: 0 <= i < |groups| ==> IndexCounts(groups)[groups[i].0] == groups[i].1
  {
    forall i | 0 <= i < |groups| ensures LastWithKey(groups, i) {
    }
  }
}
