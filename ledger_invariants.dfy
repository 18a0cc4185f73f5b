/**
 * What every write of the ledger preserves, and what follows from it.
 *
 * The central invariant is that a mentor never has more than one accepted request. Create writes
 * only `pending`, reject and cancel write only `rejected` and `cancelled`, and accept writes
 * `accepted` only after checking that the mentor has no accepted request. Alongside it: each
 * mentee has at most one pending request, emails are unique, and every request joins a user
 * with role mentor to a user with role mentee.
 */
module LedgerInvariants {
  import opened Wrappers
  import opened Ledger

  ghost predicate UniqueEmails(users: seq<User>) {
    forall i, j :: 0 <= i < j < |users| ==> users[i].email != users[j].email
  }

  /** `mentor_id` names a mentor and `mentee_id` a mentee, for every request. */
  ghost predicate PartiesTyped(db: Db) {
    forall k :: 0 <= k < |db.requests| ==>
      HasRole(db.users, db.requests[k].mentorId, Mentor) && HasRole(db.users, db.requests[k].menteeId, Mentee)
  }

  ghost predicate OneAcceptedPerMentor(requests: seq<MatchRequest>) {
    forall i, j :: (0 <= i < |requests| && 0 <= j < |requests|
                    && requests[i].status == Accepted && requests[j].status == Accepted
                    && requests[i].mentorId == requests[j].mentorId) ==> i == j
  }

  ghost predicate OnePendingPerMentee(requests: seq<MatchRequest>) {
    forall i, j :: (0 <= i < |requests| && 0 <= j < |requests|
                    && requests[i].status == Pending && requests[j].status == Pending
                    && requests[i].menteeId == requests[j].menteeId) ==> i == j
  }

  ghost predicate Consistent(db: Db) {
    && UsersNumbered(db.users) && RequestsNumbered(db.requests)
    && UniqueEmails(db.users) && PartiesTyped(db)
    && OneAcceptedPerMentor(db.requests) && OnePendingPerMentee(db.requests)
  }

  /** `b` is `a` with some statuses rewritten and nothing else. */
  ghost predicate OnlyStatuses(a: seq<MatchRequest>, b: seq<MatchRequest>) {
    |a| == |b| && forall k :: 0 <= k < |a| ==> b[k] == a[k].(status := b[k].status)
  }

  // ---------------------------------------------------------------------------------------
  // Building blocks

  lemma HasRoleExtend(users: seq<User>, u: User, id: int, role: Role)
    requires HasRole(users, id, role)
    ensures HasRole(users + [u], id, role)
  {
    assert (users + [u])[id - 1] == users[id - 1];
  }

  /** Rewriting statuses keeps numbering, emails and typing; the uniqueness invariants are kept
      when the result has one accepted request per mentor and no pending request that was not there. */
  lemma RewriteKeeps(db: Db, requests: seq<MatchRequest>)
    requires Consistent(db) && OnlyStatuses(db.requests, requests)
    requires OneAcceptedPerMentor(requests)
    requires forall k :: 0 <= k < |requests| && requests[k].status == Pending ==> db.requests[k].status == Pending
    ensures Consistent(Db(db.users, requests))
  {
    forall k | 0 <= k < |requests| ensures requests[k].id == db.requests[k].id
      && requests[k].mentorId == db.requests[k].mentorId && requests[k].menteeId == db.requests[k].menteeId {
      assert requests[k] == db.requests[k].(status := requests[k].status);
    }
  }

  /** Rewriting statuses keeps numbering and typing; it keeps the two uniqueness invariants when
      it creates no accepted request and no pending request that were not there before. */
  lemma StatusRewriteKeeps(db: Db, requests: seq<MatchRequest>)
    requires Consistent(db) && OnlyStatuses(db.requests, requests)
    requires forall k :: 0 <= k < |requests| && requests[k].status == Accepted ==> db.requests[k].status == Accepted
    requires forall k :: 0 <= k < |requests| && requests[k].status == Pending ==> db.requests[k].status == Pending
    ensures Consistent(Db(db.users, requests))
  {
    forall k | 0 <= k < |requests| ensures requests[k].id == db.requests[k].id
      && requests[k].mentorId == db.requests[k].mentorId && requests[k].menteeId == db.requests[k].menteeId {
      assert requests[k] == db.requests[k].(status := requests[k].status);
    }
  }

  lemma WriteStatusKeeps(db: Db, k: nat, s: Status)
    requires Consistent(db) && k < |db.requests| && s != Accepted && s != Pending
    ensures Consistent(WriteStatus(db, k, s).db)
  {
    StatusRewriteKeeps(db, WriteStatus(db, k, s).db.requests);
  }

  // ---------------------------------------------------------------------------------------
  // One lemma per write

  lemma SignupKeepsConsistent(db: Db, email: string, name: string, role: string)
    requires Consistent(db)
    ensures Consistent(Signup(db, email, name, role).db)
  {
    var t := Signup(db, email, name, role);
    if t.reply.Ok? {
      var u := t.reply.value;
      forall k | 0 <= k < |db.requests|
        ensures HasRole(t.db.users, db.requests[k].mentorId, Mentor) && HasRole(t.db.users, db.requests[k].menteeId, Mentee)
      {
        HasRoleExtend(db.users, u, db.requests[k].mentorId, Mentor);
        HasRoleExtend(db.users, u, db.requests[k].menteeId, Mentee);
      }
    }
  }

  lemma UpdateProfileKeepsConsistent(db: Db, callerId: int, name: string, bio: string, image: string,
                                     skills: Option<seq<string>>, imageValid: bool)
    requires Consistent(db)
    ensures Consistent(UpdateProfile(db, callerId, name, bio, image, skills, imageValid).db)
  {
    var t := UpdateProfile(db, callerId, name, bio, image, skills, imageValid);
    if t.reply.Ok? {
      var users := t.db.users;
      forall k | 0 <= k < |users| ensures users[k].id == db.users[k].id && users[k].email == db.users[k].email
                                          && users[k].role == db.users[k].role {
      }
      forall id, role | HasRole(db.users, id, role) ensures HasRole(users, id, role) {
      }
    }
  }

  /** Appending a pending request between a mentor and a mentee with no pending request keeps the invariant. */
  lemma AppendPendingKeeps(db: Db, q: MatchRequest)
    requires Consistent(db)
    requires q.id == |db.requests| + 1 && q.status == Pending
    requires HasRole(db.users, q.mentorId, Mentor) && HasRole(db.users, q.menteeId, Mentee)
    requires !HasPendingFrom(db.requests, q.menteeId)
    ensures Consistent(Db(db.users, db.requests + [q]))
  {
    var rs := db.requests + [q];
    var n := |db.requests|;
    assert forall k :: 0 <= k < n ==> rs[k] == db.requests[k];
    assert rs[n] == q;
    forall i, j | 0 <= i < |rs| && 0 <= j < |rs| && rs[i].status == Pending && rs[j].status == Pending
                  && rs[i].menteeId == rs[j].menteeId
      ensures i == j
    {
      if i < n && j < n {
        assert db.requests[i] == rs[i] && db.requests[j] == rs[j];
      }
    }
  }

  lemma CreateKeepsConsistent(db: Db, callerId: int, mentorId: int, menteeId: int, message: string)
    requires Consistent(db)
    ensures Consistent(Create(db, callerId, mentorId, menteeId, message).db)
  {
    var t := Create(db, callerId, mentorId, menteeId, message);
    if t.reply.Ok? {
      AppendPendingKeeps(db, t.reply.value);
    }
  }

  /** The cascade rewrites statuses only, and makes no request pending. */
  lemma CascadeRewrites(requests: seq<MatchRequest>, mentorId: int, rid: int, target: nat)
    ensures var rs := Cascade(requests, mentorId, rid, target);
            && OnlyStatuses(requests, rs)
            && forall k :: 0 <= k < |rs| && rs[k].status == Pending ==> requests[k].status == Pending
  {
  }

  /** After the cascade the accepted requests are the target and those accepted before. */
  lemma CascadeAccepted(requests: seq<MatchRequest>, mentorId: int, rid: int, target: nat, k: nat)
    requires k < |requests|
    ensures Cascade(requests, mentorId, rid, target)[k].status == Accepted <==>
              k == target || requests[k].status == Accepted
  {
  }

  /** The cascade of an accept by a mentor with no accepted request keeps one accepted request per mentor. */
  lemma CascadeOneAccepted(requests: seq<MatchRequest>, mentorId: int, rid: int, target: nat)
    requires OneAcceptedPerMentor(requests)
    requires target < |requests| && requests[target].mentorId == mentorId
    requires !HasAcceptedFor(requests, mentorId)
    ensures OneAcceptedPerMentor(Cascade(requests, mentorId, rid, target))
  {
    var rs := Cascade(requests, mentorId, rid, target);
    forall i, j | 0 <= i < |rs| && 0 <= j < |rs| && rs[i].status == Accepted && rs[j].status == Accepted
                  && rs[i].mentorId == rs[j].mentorId
      ensures i == j
    {
      CascadeAccepted(requests, mentorId, rid, target, i);
      CascadeAccepted(requests, mentorId, rid, target, j);
      assert rs[i].mentorId == requests[i].mentorId && rs[j].mentorId == requests[j].mentorId;
    }
  }

  /** The cascade of an accept by a mentor with no accepted request keeps the invariant. */
  lemma CascadeKeeps(db: Db, mentorId: int, rid: int, target: nat)
    requires Consistent(db)
    requires target < |db.requests| && db.requests[target].mentorId == mentorId
    requires !HasAcceptedFor(db.requests, mentorId)
    ensures Consistent(Db(db.users, Cascade(db.requests, mentorId, rid, target)))
  {
    CascadeRewrites(db.requests, mentorId, rid, target);
    CascadeOneAccepted(db.requests, mentorId, rid, target);
    RewriteKeeps(db, Cascade(db.requests, mentorId, rid, target));
  }

  lemma AcceptKeepsConsistent(db: Db, callerId: int, rid: int)
    requires Consistent(db)
    ensures Consistent(Accept(db, callerId, rid).db)
  {
    if AcceptCheck(db, callerId, rid).Ok? {
      AcceptIsCascade(db, callerId, rid);
      CascadeKeeps(db, callerId, rid, rid - 1);
    }
  }

  lemma RejectKeepsConsistent(db: Db, callerId: int, rid: int)
    requires Consistent(db)
    ensures Consistent(Reject(db, callerId, rid).db)
  {
    if Reject(db, callerId, rid).reply.Ok? {
      WriteStatusKeeps(db, rid - 1, Rejected);
    }
  }

  lemma CancelKeepsConsistent(db: Db, callerId: int, rid: int)
    requires Consistent(db)
    ensures Consistent(Cancel(db, callerId, rid).db)
  {
    if Cancel(db, callerId, rid).reply.Ok? {
      WriteStatusKeeps(db, rid - 1, Cancelled);
    }
  }

  // ---------------------------------------------------------------------------------------
  // Any sequence of operations

  /** A call of one of the writing endpoints, with the caller as authenticated. */
  datatype Op =
    | SignupOp(email: string, name: string, role: string)
    | UpdateProfileOp(callerId: int, name: string, bio: string, image: string,
                      skills: Option<seq<string>>, imageValid: bool)
    | CreateOp(callerId: int, mentorId: int, menteeId: int, message: string)
    | AcceptOp(callerId: int, rid: int)
    | RejectOp(callerId: int, rid: int)
    | CancelOp(callerId: int, rid: int)

  function Apply(db: Db, op: Op): Db {
    match op
    case SignupOp(email, name, role) => Signup(db, email, name, role).db
    case UpdateProfileOp(c, name, bio, image, skills, ok) => UpdateProfile(db, c, name, bio, image, skills, ok).db
    case CreateOp(c, mentorId, menteeId, message) => Create(db, c, mentorId, menteeId, message).db
    case AcceptOp(c, rid) => Accept(db, c, rid).db
    case RejectOp(c, rid) => Reject(db, c, rid).db
    case CancelOp(c, rid) => Cancel(db, c, rid).db
  }

  /** The database after the operations, applied in order. */
  function Run(db: Db, ops: seq<Op>): Db
    decreases |ops|
  {
    if ops == [] then db else Run(Apply(db, ops[0]), ops[1..])
  }

  lemma ApplyKeepsConsistent(db: Db, op: Op)
    requires Consistent(db)
    ensures Consistent(Apply(db, op))
  {
    match op
    case SignupOp(email, name, role) => SignupKeepsConsistent(db, email, name, role);
    case UpdateProfileOp(c, name, bio, image, skills, ok) =>
      UpdateProfileKeepsConsistent(db, c, name, bio, image, skills, ok);
    case CreateOp(c, mentorId, menteeId, message) => CreateKeepsConsistent(db, c, mentorId, menteeId, message);
    case AcceptOp(c, rid) => AcceptKeepsConsistent(db, c, rid);
    case RejectOp(c, rid) => RejectKeepsConsistent(db, c, rid);
    case CancelOp(c, rid) => CancelKeepsConsistent(db, c, rid);
  }

  lemma {:induction false} RunKeepsConsistent(db: Db, ops: seq<Op>)
    requires Consistent(db)
    ensures Consistent(Run(db, ops))
    decreases |ops|
  {
    if ops != [] {
      ApplyKeepsConsistent(db, ops[0]);
      RunKeepsConsistent(Apply(db, ops[0]), ops[1..]);
    }
  }

  /** From the empty database, after any sequence of operations, no mentor has two accepted
      requests and no mentee two pending ones. */
  lemma AtMostOneAcceptedEver(ops: seq<Op>)
    ensures OneAcceptedPerMentor(Run(Db([], []), ops).requests)
    ensures OnePendingPerMentee(Run(Db([], []), ops).requests)
  {
    RunKeepsConsistent(Db([], []), ops);
  }

  // ---------------------------------------------------------------------------------------
  // Consequences

  /** No request names the same user as mentor and mentee, although create has no such guard:
      the caller must be a mentee and the target a mentor. */
  lemma NoSelfRequest(db: Db)
    requires Consistent(db)
    ensures forall k :: 0 <= k < |db.requests| ==> db.requests[k].mentorId != db.requests[k].menteeId
  {
    forall k | 0 <= k < |db.requests| ensures db.requests[k].mentorId != db.requests[k].menteeId {
      assert HasRole(db.users, db.requests[k].mentorId, Mentor);
      assert HasRole(db.users, db.requests[k].menteeId, Mentee);
    }
  }

  /** After a successful accept no request of that mentor is pending: the target is accepted and
      its pending siblings rejected. */
  lemma AcceptClearsPending(db: Db, callerId: int, rid: int)
    requires RequestsNumbered(db.requests)
    requires Accept(db, callerId, rid).reply.Ok?
    ensures var rs := Accept(db, callerId, rid).db.requests;
            && HasAcceptedFor(rs, callerId)
            && forall k :: 0 <= k < |rs| && rs[k].mentorId == callerId ==> rs[k].status != Pending
  {
    var rs := Accept(db, callerId, rid).db.requests;
    assert rs[rid - 1].mentorId == callerId && rs[rid - 1].status == Accepted;
    forall k | 0 <= k < |rs| && rs[k].mentorId == callerId ensures rs[k].status != Pending {
      if k != rid - 1 {
        assert db.requests[k].id != rid;
      }
    }
  }

  /** Once a mentor has accepted a request, every further accept by them fails until that
      request is rejected or cancelled. */
  lemma SecondAcceptFails(db: Db, callerId: int, rid: int, rid2: int)
    requires RequestsNumbered(db.requests)
    requires Accept(db, callerId, rid).reply.Ok?
    ensures Accept(Accept(db, callerId, rid).db, callerId, rid2).reply.Err?
  {
    AcceptClearsPending(db, callerId, rid);
  }

  /** Cancelling a mentor's accepted request frees the mentor: they have no accepted request left. */
  lemma CancelFreesMentor(db: Db, callerId: int, rid: int)
    requires Consistent(db)
    requires Cancel(db, callerId, rid).reply.Ok? && db.requests[rid - 1].status == Accepted
    ensures !HasAcceptedFor(Cancel(db, callerId, rid).db.requests, db.requests[rid - 1].mentorId)
  {
    var rs := Cancel(db, callerId, rid).db.requests;
    var m := db.requests[rid - 1].mentorId;
    forall k | 0 <= k < |rs| && rs[k].mentorId == m ensures rs[k].status != Accepted {
      if k != rid - 1 {
        assert rs[k] == db.requests[k];
      }
    }
  }

  /** A repeated cancel succeeds and changes nothing more. */
  lemma CancelIdempotent(db: Db, callerId: int, rid: int)
    requires Cancel(db, callerId, rid).reply.Ok?
    ensures var once := Cancel(db, callerId, rid);
            var twice := Cancel(once.db, callerId, rid);
            twice.reply == once.reply && twice.db == once.db
  {
    var once := Cancel(db, callerId, rid);
    assert once.db.users == db.users;
    assert once.db.requests[rid - 1].menteeId == callerId;
  }

  /** A repeated reject succeeds and changes nothing more. */
  lemma RejectIdempotent(db: Db, callerId: int, rid: int)
    requires Reject(db, callerId, rid).reply.Ok?
    ensures var once := Reject(db, callerId, rid);
            var twice := Reject(once.db, callerId, rid);
            twice.reply == once.reply && twice.db == once.db
  {
    var once := Reject(db, callerId, rid);
    assert once.db.users == db.users;
    assert once.db.requests[rid - 1].mentorId == callerId;
  }

  /** A failed call of any writing endpoint leaves the database as it was. */
  lemma FailureChangesNothing(db: Db, op: Op)
    ensures match op
            case SignupOp(email, name, role) =>
              Signup(db, email, name, role).reply.Err? ==> Apply(db, op) == db
            case UpdateProfileOp(c, name, bio, image, skills, ok) =>
              UpdateProfile(db, c, name, bio, image, skills, ok).reply.Err? ==> Apply(db, op) == db
            case CreateOp(c, mentorId, menteeId, message) =>
              Create(db, c, mentorId, menteeId, message).reply.Err? ==> Apply(db, op) == db
            case AcceptOp(c, rid) => Accept(db, c, rid).reply.Err? ==> Apply(db, op) == db
            case RejectOp(c, rid) => Reject(db, c, rid).reply.Err? ==> Apply(db, op) == db
            case CancelOp(c, rid) => Cancel(db, c, rid).reply.Err? ==> Apply(db, op) == db
  {
  }

  // ---------------------------------------------------------------------------------------
  // Behaviour the handlers allow

  /** A mentor (id 1) and a mentee (id 2) with one cancelled request between them. */
  function CancelledPair(): Db {
    Db([User(1, "m@x", "M", Mentor, "", None, Some([])), User(2, "e@x", "E", Mentee, "", None, None)],
       [MatchRequest(1, 1, 2, "hi", Cancelled)])
  }

  /** Accept does not look at the target's status: a cancelled request is brought back as accepted. */
  lemma AcceptRevivesCancelled()
    ensures Consistent(CancelledPair())
    ensures Accept(CancelledPair(), 1, 1).reply == Ok(MatchRequest(1, 1, 2, "hi", Accepted))
  {
    assert HasRole(CancelledPair().users, 1, Mentor);
    assert FindOwned(CancelledPair().requests, 1, 1, Mentor) == Some(0);
  }

  /** Create only refuses a mentee with a pending request: one whose request was accepted may
      send another, to the same mentor or any other. */
  lemma CreateAfterAccepted()
    ensures var db := Accept(CancelledPair(), 1, 1).db;
            && Consistent(db)
            && Create(db, 2, 1, 0, "again").reply.Ok?
  {
    AcceptRevivesCancelled();
    AcceptKeepsConsistent(CancelledPair(), 1, 1);
    var db := Accept(CancelledPair(), 1, 1).db;
    assert db.requests == [MatchRequest(1, 1, 2, "hi", Accepted)];
    assert HasRole(db.users, 2, Mentee) && HasRole(db.users, 1, Mentor);
  }
}
