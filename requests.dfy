/**
 * The access-request workflow: listing requests for a caller, submitting a
 * request, approving it (which inserts a direct grant) and rejecting it.
 */
module Requests {
  import opened Schema
  import UserPermissions

  // ---------------------------------------------------------------------
  // getAll (models/requests.model.js:5-58)
  // ---------------------------------------------------------------------

  /**
   * The three-way selection of `getAll`: an admin asking for "Pending" sees
   * every pending request, an admin asking for another status sees the
   * requests with that status they reviewed, anyone else sees their own
   * requests with that status.
   */
  predicate Selected(req: Request, caller: UserId, isAdmin: bool, status: string)
  {
    && StatusName(req.status) == status
    && if isAdmin then
         status == "Pending" || req.reviewedBy == Some(caller)
       else
         req.userId == caller
  }

  /** The inner joins with `permissions` and `users` drop requests whose permission or requester is gone. */
  predicate Joined(req: Request, permissions: map<PermissionId, Permission>, users: map<UserId, User>)
  {
    req.permissionId in permissions && req.userId in users
  }

  /** `ids` lists newest request first (`ORDER BY pr.requested_at DESC`). */
  predicate NewestFirst(ids: seq<RequestId>, requests: map<RequestId, Request>)
    requires forall id :: id in ids ==> id in requests
  {
    forall i, j :: 0 <= i < j < |ids| ==> requests[ids[i]].requestedAt >= requests[ids[j]].requestedAt
  }

  predicate NoDuplicates(ids: seq<RequestId>)
  {
    forall i, j :: 0 <= i < j < |ids| ==> ids[i] != ids[j]
  }

  /** Places `id` before the first request that is not newer than it. */
  function InsertNewest(id: RequestId, sorted: seq<RequestId>, requests: map<RequestId, Request>): (r: seq<RequestId>)
    requires id in requests && forall x :: x in sorted ==> x in requests
    ensures multiset(r) == multiset(sorted) + multiset{id}
    ensures forall x :: x in r ==> x in requests
  {
    if sorted == [] || requests[id].requestedAt >= requests[sorted[0]].requestedAt then
      [id] + sorted
    else
      assert sorted == [sorted[0]] + sorted[1..];
      [sorted[0]] + InsertNewest(id, sorted[1..], requests)
  }

  /** Putting a request no older than every listed one in front keeps the list newest first. */
  lemma ConsNewest(x: RequestId, s: seq<RequestId>, requests: map<RequestId, Request>)
    requires x in requests && forall y :: y in s ==> y in requests
    requires NewestFirst(s, requests)
    requires forall y :: y in s ==> requests[x].requestedAt >= requests[y].requestedAt
    ensures NewestFirst([x] + s, requests)
  {
    var r := [x] + s;
    forall i, j | 0 <= i < j < |r|
      ensures requests[r[i]].requestedAt >= requests[r[j]].requestedAt
    {
      assert r[j] == s[j - 1] && r[j] in s;
      if i > 0 {
        assert r[i] == s[i - 1];
      }
    }
  }

  /** Inserting into a newest-first sequence keeps it newest first. */
  lemma {:induction false} InsertNewestSorted(id: RequestId, sorted: seq<RequestId>, requests: map<RequestId, Request>)
    requires id in requests && forall x :: x in sorted ==> x in requests
    requires NewestFirst(sorted, requests)
    ensures NewestFirst(InsertNewest(id, sorted, requests), requests)
  {
    if sorted == [] || requests[id].requestedAt >= requests[sorted[0]].requestedAt {
      forall y | y in sorted
        ensures requests[id].requestedAt >= requests[y].requestedAt
      {
        var k :| 0 <= k < |sorted| && sorted[k] == y;
        if k > 0 {
          assert requests[sorted[0]].requestedAt >= requests[sorted[k]].requestedAt;
        }
      }
      ConsNewest(id, sorted, requests);
    } else {
      var tail := sorted[1..];
      assert NewestFirst(tail, requests) by {
        forall i, j | 0 <= i < j < |tail|
          ensures requests[tail[i]].requestedAt >= requests[tail[j]].requestedAt
        {
          assert tail[i] == sorted[i + 1] && tail[j] == sorted[j + 1];
        }
      }
      InsertNewestSorted(id, tail, requests);
      var rest := InsertNewest(id, tail, requests);
      forall y | y in rest
        ensures requests[sorted[0]].requestedAt >= requests[y].requestedAt
      {
        assert y in multiset(rest);
        if y != id {
          assert y in multiset(tail);
          var k :| 0 <= k < |tail| && tail[k] == y;
          assert sorted[k + 1] == y;
        }
      }
      ConsNewest(sorted[0], rest, requests);
    }
  }

  /** Insertion sort by `requested_at`, newest first; requests with equal times keep their input order. */
  function SortNewest(ids: seq<RequestId>, requests: map<RequestId, Request>): (r: seq<RequestId>)
    requires forall x :: x in ids ==> x in requests
    ensures multiset(r) == multiset(ids)
    ensures forall x :: x in r ==> x in requests
  {
    if ids == [] then []
    else
      assert ids == [ids[0]] + ids[1..];
      InsertNewest(ids[0], SortNewest(ids[1..], requests), requests)
  }

  /** The insertion sort's result is newest first. */
  lemma {:induction false} SortNewestSorted(ids: seq<RequestId>, requests: map<RequestId, Request>)
    requires forall x :: x in ids ==> x in requests
    ensures NewestFirst(SortNewest(ids, requests), requests)
  {
    if ids != [] {
      assert ids == [ids[0]] + ids[1..];
      SortNewestSorted(ids[1..], requests);
      InsertNewestSorted(ids[0], SortNewest(ids[1..], requests), requests);
    }
  }

  /** Two sequences with the same multiset hold the same ids, and both or neither repeat one. */
  lemma PermutationKeepsIds(a: seq<RequestId>, b: seq<RequestId>)
    requires multiset(a) == multiset(b)
    ensures forall x :: x in a <==> x in b
    ensures NoDuplicates(a) <==> NoDuplicates(b)
  {
    assert forall x :: x in a <==> x in multiset(a);
    assert forall x :: x in b <==> x in multiset(b);
    NoDuplicatesByCount(a);
    NoDuplicatesByCount(b);
  }

  /** A sequence with no repeated id has a multiset where every count is at most one, and back. */
  lemma {:induction false} NoDuplicatesByCount(ids: seq<RequestId>)
    ensures NoDuplicates(ids) <==> forall x :: multiset(ids)[x] <= 1
  {
    if ids != [] {
      var rest := ids[1..];
      assert ids == [ids[0]] + rest;
      NoDuplicatesByCount(rest);
      if NoDuplicates(ids) {
        forall k | 0 <= k < |rest|
          ensures rest[k] != ids[0]
        {
          assert rest[k] == ids[k + 1];
        }
        assert ids[0] !in rest;
        assert NoDuplicates(rest) by {
          forall i, j | 0 <= i < j < |rest|
            ensures rest[i] != rest[j]
          {
            assert rest[i] == ids[i + 1] && rest[j] == ids[j + 1];
          }
        }
      }
      if forall x :: multiset(ids)[x] <= 1 {
        assert forall x :: multiset(rest)[x] <= multiset(ids)[x];
        assert multiset(rest)[ids[0]] == 0;
        forall i, j | 0 <= i < j < |ids|
          ensures ids[i] != ids[j]
        {
          if i == 0 {
            assert ids[j] in rest;
          } else {
            assert ids[i] == rest[i - 1] && ids[j] == rest[j - 1];
          }
        }
      }
    }
  }

  /** The request is listed for this caller and status and survives the joins. */
  predicate Visible(requests: map<RequestId, Request>, permissions: map<PermissionId, Permission>,
                    users: map<UserId, User>, caller: UserId, isAdmin: bool, status: string, id: RequestId)
  {
    id in requests && Selected(requests[id], caller, isAdmin, status) && Joined(requests[id], permissions, users)
  }

  /**
   * `getAll({ userId, isAdmin, status })`: the ids of the requests the caller
   * may see with that status, each once, newest first.
   */
  function GetAll(requests: map<RequestId, Request>, permissions: map<PermissionId, Permission>,
                  users: map<UserId, User>, caller: UserId, isAdmin: bool, status: string,
                  bound: nat): (r: seq<RequestId>)
    requires KeysBelow(requests, bound)
    ensures forall id :: id in r <==> Visible(requests, permissions, users, caller, isAdmin, status, id)
    ensures NoDuplicates(r)
    ensures forall id :: id in r ==> id in requests
    ensures NewestFirst(r, requests)
  {
    var ids := IdsWhere(bound, (id: nat) => Visible(requests, permissions, users, caller, isAdmin, status, id));
    assert NoDuplicates(ids);
    var r := SortNewest(ids, requests);
    PermutationKeepsIds(ids, r);
    SortNewestSorted(ids, requests);
    r
  }

  // ---------------------------------------------------------------------
  // create, approve, reject (models/requests.model.js:63-120)
  // ---------------------------------------------------------------------

  /**
   * `create({ user_id, permission_id, reason, expires_at })`: a new pending
   * request, requested now, with a falsy expiry stored as NULL.
   */
  method Create(db: Database, userId: UserId, permissionId: PermissionId, reason: Option<string>,
                expiresAt: Option<Time>, now: Time) returns (id: RequestId)
    requires db.Valid()
    modifies db`requests, db`nextRequestId
    ensures db.Valid()
    ensures id !in old(db.requests)
    ensures db.requests == old(db.requests)[id := Request(userId, permissionId, reason, now, Pending,
                                                          None, None, None, OrNullInt(expiresAt))]
  {
    id := db.nextRequestId;
    db.requests := db.requests[id := Request(userId, permissionId, reason, now, Pending, None, None, None, OrNullInt(expiresAt))];
    db.nextRequestId := db.nextRequestId + 1;
  }

  /** The request can be approved: it exists and is still pending. */
  predicate Approvable(requests: map<RequestId, Request>, id: RequestId)
  {
    id in requests && requests[id].status == Pending
  }

  /**
   * `approve({ request_id, reviewed_by })`, one transaction: re-check that
   * the request is pending, insert one direct grant for the requester with
   * the request's stored expiry (a stored time is a Date, always truthy, so
   * `|| null` keeps it), and mark the request approved.
   */
  method Approve(db: Database, id: RequestId, admin: UserId, now: Time) returns (r: Result<()>)
    requires db.Valid()
    modifies db`requests, db`grants
    ensures db.Valid()
    ensures r.Success? <==> Approvable(old(db.requests), id)
    ensures r.Failure? ==> r.error == InvalidOrProcessedRequest && unchanged(db)
    ensures r.Success? ==>
      var req := old(db.requests)[id];
      && db.grants == old(db.grants) + [Grant(req.userId, req.permissionId, req.expiresAt)]
      && db.requests == old(db.requests)[id := req.(status := Approved, reviewedBy := Some(admin), reviewedAt := Some(now))]
  {
    if id !in db.requests || db.requests[id].status != Pending {
      return Failure(InvalidOrProcessedRequest);
    }
    var req := db.requests[id];
    db.grants := db.grants + [Grant(req.userId, req.permissionId, req.expiresAt)];
    db.requests := db.requests[id := req.(status := Approved, reviewedBy := Some(admin), reviewedAt := Some(now))];
    r := Success(());
  }

  /**
   * `reject({ request_id, reviewed_by, rejection_reason })`: overwrite the
   * status whatever it was; `success` reports whether the row exists.
   */
  method Reject(db: Database, id: RequestId, admin: UserId, reason: Option<string>, now: Time)
    returns (success: bool)
    requires db.Valid()
    modifies db`requests
    ensures db.Valid()
    ensures success <==> id in old(db.requests)
    ensures success ==> db.requests == old(db.requests)[id := old(db.requests)[id].(
      status := Rejected, reviewedBy := Some(admin), reviewedAt := Some(now), rejectionReason := reason)]
    ensures !success ==> db.requests == old(db.requests)
  {
    success := id in db.requests;
    if success {
      db.requests := db.requests[id := db.requests[id].(
        status := Rejected, reviewedBy := Some(admin), reviewedAt := Some(now), rejectionReason := reason)];
    }
  }

  // ---------------------------------------------------------------------
  // Consequences over several calls
  // ---------------------------------------------------------------------

  /** Approving the same request twice: the second call fails, so exactly one grant is added. */
  method ApproveTwice(db: Database, id: RequestId, admin: UserId, now: Time, later: Time)
    returns (first: Result<()>, second: Result<()>)
    requires db.Valid() && Approvable(db.requests, id)
    modifies db`requests, db`grants
    ensures first.Success? && second == Failure(InvalidOrProcessedRequest)
    ensures |db.grants| == |old(db.grants)| + 1
  {
    first := Approve(db, id, admin, now);
    second := Approve(db, id, admin, later);
  }

  /**
   * Approving a pending request for a stored permission whose expiry is
   * absent or still ahead makes the permission resolved for the requester
   * at once: the next `getUserPermissions` reads the new grant.
   */
  method ApproveThenResolved(db: Database, id: RequestId, admin: UserId, now: Time) returns (r: Result<()>)
    requires db.Valid() && Approvable(db.requests, id)
    requires db.requests[id].permissionId in db.permissions
    requires db.requests[id].expiresAt.None? || db.requests[id].expiresAt.value > now
    modifies db`requests, db`grants
    ensures r.Success?
    ensures old(db.requests)[id].permissionId in
      UserPermissions.ResolvedIds(db.permissions, db.userRoles, db.rolePermissions, db.grants,
                                  old(db.requests)[id].userId, now, db.nextPermissionId)
  {
    var req := db.requests[id];
    r := Approve(db, id, admin, now);
    var g := Grant(req.userId, req.permissionId, req.expiresAt);
    assert g == db.grants[|db.grants| - 1];
    assert UserPermissions.ViaGrant(db.grants, req.userId, req.permissionId, now);
  }

  /**
   * Rejecting an approved request succeeds: the status becomes Rejected
   * while the grant inserted by the approval stays in place.
   */
  method RejectAfterApprove(db: Database, id: RequestId, admin: UserId, now: Time)
    returns (success: bool)
    requires db.Valid() && Approvable(db.requests, id)
    modifies db`requests, db`grants
    ensures success && id in db.requests && db.requests[id].status == Rejected
    ensures |db.grants| == |old(db.grants)| + 1
    ensures var req := old(db.requests)[id];
      db.grants == old(db.grants) + [Grant(req.userId, req.permissionId, req.expiresAt)]
  {
    var approved := Approve(db, id, admin, now);
    success := Reject(db, id, admin, None, now);
  }
}
