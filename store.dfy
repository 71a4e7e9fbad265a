/**
 * The user collection the create, update, delete and list handlers work on,
 * with the unique index on `email` and the identifiers the store assigns.
 */
module Store {
  import opened Wrappers
  import opened Schema
  import opened Search
  import Paging

  /**
   * Why a write handler fails: the schema refused the body, the unique index
   * on email refused it (both answered 400), or no record has the identifier
   * (answered 404).
   */
  datatype Failure = Invalid(violations: seq<Violation>) | DuplicateEmail | NotFound

  /** Some record other than `except` already holds `email`. */
  predicate EmailTaken(m: map<nat, User>, email: string, except: Option<nat>) {
    exists k | k in m :: Some(k) != except && m[k].email == email
  }

  /** The identifiers below `bound` that have a record. */
  ghost function KeysBelow(m: map<nat, User>, bound: nat): set<nat> {
    set k | k in m && k < bound
  }

  /** The records with identifiers below `bound`, in ascending identifier order. */
  function InIdOrder(m: map<nat, User>, bound: nat): (r: seq<User>)
    ensures forall k :: k in m && k < bound ==> m[k] in r
    ensures forall u :: u in r ==> exists k :: k in m && k < bound && m[k] == u
  {
    if bound == 0 then []
    else InIdOrder(m, bound - 1) + (if bound - 1 in m then [m[bound - 1]] else [])
  }

  /** Every record below `bound` is listed exactly once. */
  lemma {:induction false} InIdOrderLength(m: map<nat, User>, bound: nat)
    ensures |InIdOrder(m, bound)| == |KeysBelow(m, bound)|
  {
    if bound == 0 {
      assert KeysBelow(m, bound) == {};
    } else {
      InIdOrderLength(m, bound - 1);
      var below := KeysBelow(m, bound - 1);
      assert bound - 1 !in below;
      if bound - 1 in m {
        assert KeysBelow(m, bound) == below + {bound - 1};
      } else {
        assert KeysBelow(m, bound) == below;
      }
    }
  }

  /** When every record sits under its own identifier, the listing is in strictly ascending identifier order, so no record appears twice. */
  lemma {:induction false} InIdOrderAscending(m: map<nat, User>, bound: nat)
    requires forall k :: k in m ==> m[k].id == k
    ensures forall u :: u in InIdOrder(m, bound) ==> u.id < bound
    ensures forall i, j :: 0 <= i < j < |InIdOrder(m, bound)| ==> InIdOrder(m, bound)[i].id < InIdOrder(m, bound)[j].id
  {
    if bound > 0 {
      InIdOrderAscending(m, bound - 1);
      var prefix := InIdOrder(m, bound - 1);
      if bound - 1 in m {
        var r := prefix + [m[bound - 1]];
        assert InIdOrder(m, bound) == r;
        forall i, j | 0 <= i < j < |r| ensures r[i].id < r[j].id {
          if j == |r| - 1 {
            assert r[i] in prefix;
          }
        }
      } else {
        assert InIdOrder(m, bound) == prefix;
      }
    }
  }

  class UserCollection {
    var users: map<nat, User>
    var nextId: nat

    /**
     * Every stored record sits under its own identifier, below the next
     * identifier to hand out, and satisfies the schema; no two records share
     * an email.
     */
    ghost predicate Valid()
      reads this
    {
      && (forall k :: k in users ==> k < nextId && users[k].id == k && IsValidUser(users[k]))
      && (forall k, k' :: k in users && k' in users && k != k' ==> users[k].email != users[k'].email)
    }

    /** The collection in the order `find` returns it. */
    function Snapshot(): seq<User>
      reads this
    {
      InIdOrder(users, nextId)
    }

    constructor ()
      ensures Valid() && users == map[] && nextId == 0
    {
      users := map[];
      nextId := 0;
    }

    /**
     * `User.create`: validate, then insert under a fresh identifier unless the
     * email is already stored.
     */
    method Create(b: Body) returns (r: Result<User, Failure>)
      requires Valid()
      modifies this
      ensures Valid()
      ensures Violations(b) != [] ==> r == Err(Invalid(Violations(b)))
      ensures Violations(b) == [] && EmailTaken(old(users), b.email.value, None) ==> r == Err(DuplicateEmail)
      ensures r.Ok? <==> Violations(b) == [] && !EmailTaken(old(users), b.email.value, None)
      ensures r.Err? ==> users == old(users) && nextId == old(nextId)
      ensures r.Ok? ==> r.value == ToUser(old(nextId), b) && r.value.id !in old(users)
      ensures r.Ok? ==> users == old(users)[r.value.id := r.value] && nextId == old(nextId) + 1
      ensures r.Ok? ==> r.value in Snapshot()
    {
      var violations := Violations(b);
      if violations != [] {
        return Err(Invalid(violations));
      }
      if EmailTaken(users, b.email.value, None) {
        return Err(DuplicateEmail);
      }
      var u := ToUser(nextId, b);
      users := users[nextId := u];
      nextId := nextId + 1;
      r := Ok(u);
    }

    /**
     * `User.findByIdAndUpdate(id, body, {new: true, runValidators: true})`:
     * the validators run before the lookup, then the record under `id` gets
     * the four fields of the body unless another record holds its email.
     */
    method Update(id: nat, b: Body) returns (r: Result<User, Failure>)
      requires Valid()
      modifies this
      ensures Valid() && nextId == old(nextId)
      ensures Violations(b) != [] ==> r == Err(Invalid(Violations(b)))
      ensures Violations(b) == [] && id !in old(users) ==> r == Err(NotFound)
      ensures Violations(b) == [] && id in old(users) && EmailTaken(old(users), b.email.value, Some(id))
        ==> r == Err(DuplicateEmail)
      ensures r.Ok? <==> Violations(b) == [] && id in old(users) && !EmailTaken(old(users), b.email.value, Some(id))
      ensures r.Err? ==> users == old(users)
      ensures r.Ok? ==> id in old(users) && r.value == ToUser(id, b) && users == old(users)[id := r.value]
    {
      var violations := Violations(b);
      if violations != [] {
        return Err(Invalid(violations));
      }
      if id !in users {
        return Err(NotFound);
      }
      if EmailTaken(users, b.email.value, Some(id)) {
        return Err(DuplicateEmail);
      }
      var u := ToUser(id, b);
      users := users[id := u];
      r := Ok(u);
    }

    /** `User.findByIdAndDelete(id)`: remove the record and hand it back, or report that there is none. */
    method Delete(id: nat) returns (r: Result<User, Failure>)
      requires Valid()
      modifies this
      ensures Valid() && nextId == old(nextId)
      ensures r.Err? <==> id !in old(users)
      ensures r.Err? ==> r.error == NotFound && users == old(users)
      ensures r.Ok? ==> r.value == old(users)[id] && users == old(users) - {id}
      ensures r.Ok? ==> forall u :: u in Snapshot() ==> u.id != id
    {
      if id !in users {
        return Err(NotFound);
      }
      r := Ok(users[id]);
      users := users - {id};
    }

    /** The list handler on the current collection: `find` and `countDocuments` read the same snapshot. */
    method List(pageQ: Option<int>, limitQ: Option<int>, search: string, fold: char -> char)
      returns (r: Result<Paging.Page, Paging.StoreError>)
      requires Valid()
      ensures r == Paging.List(Snapshot(), pageQ, limitQ, search, fold)
      ensures r.Ok? && search == [] ==> r.value.total == |users|
    {
      r := Paging.List(Snapshot(), pageQ, limitQ, search, fold);
      InIdOrderLength(users, nextId);
      assert KeysBelow(users, nextId) == users.Keys;
    }
  }
}
