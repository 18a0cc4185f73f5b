/**
 * The user table and the match-request ledger of the backend, as pure transitions on a
 * database value. Every endpoint that writes is a function from the old database to a
 * `Transition`: the new database and the reply (a row or a classified error). The class in
 * LedgerStore performs the same writes in place and is proved equal to these functions.
 *
 * Rows are numbered 1, 2, 3, ... in insertion order (SQLite's rowid on a table whose rows
 * are never deleted), so the row with id `n` is the one at position `n - 1`.
 */
module Ledger {
  import opened Wrappers
  import Seqs
  import Text

  datatype Role = Mentor | Mentee
  datatype Status = Pending | Accepted | Rejected | Cancelled

  /** HTTP 401, 403, 404 and 400 of the handlers, as kinds. */
  datatype Error = Unauthorized | Forbidden | NotFound | BadRequest
  datatype Result<T> = Ok(value: T) | Err(error: Error)

  /** A row of `users`; `skills` is the decoded JSON column (`"[]"` is `Some([])`). */
  datatype User = User(id: int, email: string, name: string, role: Role, bio: string,
                       image: Option<string>, skills: Option<seq<string>>)

  /** A row of `match_requests`, which is also the `MatchRequestResponse` reply. */
  datatype MatchRequest = MatchRequest(id: int, mentorId: int, menteeId: int, message: string, status: Status)

  /** The `MatchRequestOutgoing` reply: a request without its message. */
  datatype OutgoingRequest = OutgoingRequest(id: int, mentorId: int, menteeId: int, status: Status)

  datatype Db = Db(users: seq<User>, requests: seq<MatchRequest>)
  datatype Transition<T> = Transition(db: Db, reply: Result<T>)

  // ---------------------------------------------------------------------------------------
  // Lookups

  ghost predicate UsersNumbered(users: seq<User>) {
    forall k :: 0 <= k < |users| ==> users[k].id == k + 1
  }

  ghost predicate RequestsNumbered(requests: seq<MatchRequest>) {
    forall k :: 0 <= k < |requests| ==> requests[k].id == k + 1
  }

  /** `SELECT * FROM users WHERE id = :id`, also the lookup `get_current_user` makes for the caller. */
  function UserById(users: seq<User>, id: int): (r: Option<User>)
    ensures r.Some? ==> 1 <= id <= |users| && r.value == users[id - 1]
    ensures UsersNumbered(users) ==> (r.Some? <==> exists k :: 0 <= k < |users| && users[k].id == id)
    ensures UsersNumbered(users) && r.Some? ==> r.value.id == id
  {
    if 1 <= id <= |users| then Some(users[id - 1]) else None
  }

  predicate HasRole(users: seq<User>, id: int, role: Role) {
    var u := UserById(users, id);
    u.Some? && u.value.role == role
  }

  /** The column that makes `r` belong to a caller acting in `side`: mentor_id or mentee_id. */
  function OwnerOf(r: MatchRequest, side: Role): int {
    if side == Mentor then r.mentorId else r.menteeId
  }

  /** `SELECT * FROM match_requests WHERE id = :rid AND <owner column> = :owner`, as a position. */
  function FindOwned(requests: seq<MatchRequest>, rid: int, owner: int, side: Role): (r: Option<nat>)
    ensures r.Some? ==> r.value < |requests| && OwnerOf(requests[r.value], side) == owner
    ensures r.Some? ==> r.value == rid - 1
    ensures RequestsNumbered(requests) ==>
              (r.None? <==> !exists k :: 0 <= k < |requests| && requests[k].id == rid
                                         && OwnerOf(requests[k], side) == owner)
  {
    if 1 <= rid <= |requests| && OwnerOf(requests[rid - 1], side) == owner then Some(rid - 1) else None
  }

  predicate EmailTaken(users: seq<User>, email: string) {
    exists k | 0 <= k < |users| :: users[k].email == email
  }

  /** The mentee has a request with status pending (backend/main.py:432-435). */
  predicate HasPendingFrom(requests: seq<MatchRequest>, menteeId: int) {
    exists k | 0 <= k < |requests| :: requests[k].menteeId == menteeId && requests[k].status == Pending
  }

  /** The mentor has a request with status accepted (backend/main.py:508-511). */
  predicate HasAcceptedFor(requests: seq<MatchRequest>, mentorId: int) {
    exists k | 0 <= k < |requests| :: requests[k].mentorId == mentorId && requests[k].status == Accepted
  }

  /** The caller is a registered user with the given role: 401 if not registered, 403 if another role. */
  function Authorize(users: seq<User>, callerId: int, role: Role): (r: Option<Error>)
    ensures r == None <==> HasRole(users, callerId, role)
    ensures r == Some(Unauthorized) <==> UserById(users, callerId).None?
    ensures r == Some(Forbidden) <==> UserById(users, callerId).Some? && !HasRole(users, callerId, role)
  {
    match UserById(users, callerId)
    case None => Some(Unauthorized)
    case Some(u) => if u.role == role then None else Some(Forbidden)
  }

  // ---------------------------------------------------------------------------------------
  // The user table

  function ParseRole(s: string): Option<Role> {
    if s == "mentor" then Some(Mentor) else if s == "mentee" then Some(Mentee) else None
  }

  /** POST /signup: a new user with an empty bio, no image, and skills `"[]"` for a mentor only. */
  function Signup(db: Db, email: string, name: string, role: string): (t: Transition<User>)
    ensures t.reply.Err? <==> ParseRole(role).None? || EmailTaken(db.users, email)
    ensures t.reply.Err? ==> t.reply.error == BadRequest && t.db == db
    ensures t.reply.Ok? ==>
              var u := t.reply.value;
              && t.db == Db(db.users + [u], db.requests)
              && u.id == |db.users| + 1 && u.email == email && u.name == name
              && Some(u.role) == ParseRole(role) && u.bio == "" && u.image == None
              && u.skills == (if role == "mentor" then Some([]) else None)
  {
    match ParseRole(role)
    case None => Transition(db, Err(BadRequest))
    case Some(r) =>
      if EmailTaken(db.users, email) then Transition(db, Err(BadRequest))
      else
        var u := User(|db.users| + 1, email, name, r, "", None, if r == Mentor then Some([]) else None);
        Transition(Db(db.users + [u], db.requests), Ok(u))
  }

  /**
   * PUT /profile for the caller's own row. `imageValid` is the verdict of the base64 and image
   * decoder on a non-empty `image`. The body's `id` and `role` are not read by the handler.
   */
  function UpdateProfile(db: Db, callerId: int, name: string, bio: string, image: string,
                         skills: Option<seq<string>>, imageValid: bool): (t: Transition<User>)
    ensures t.reply == Err(Unauthorized) <==> UserById(db.users, callerId).None?
    ensures t.reply == Err(BadRequest) <==> UserById(db.users, callerId).Some? && image != "" && !imageValid
    ensures t.reply.Ok? <==> UserById(db.users, callerId).Some? && (image == "" || imageValid)
    ensures t.reply.Err? ==> t.db == db
    ensures t.reply.Ok? ==>
              var old_ := db.users[callerId - 1];
              var u := t.reply.value;
              && 1 <= callerId <= |db.users|
              && t.db == Db(db.users[callerId - 1 := u], db.requests)
              && u.id == old_.id && u.email == old_.email && u.role == old_.role
              && u.name == name && u.bio == bio
              && u.image == (if image == "" then old_.image else Some(image))
              && u.skills == (if old_.role == Mentor && skills.Some? && skills.value != []
                              then skills else old_.skills)
  {
    match UserById(db.users, callerId)
    case None => Transition(db, Err(Unauthorized))
    case Some(u) =>
      if image != "" && !imageValid then Transition(db, Err(BadRequest))
      else
        var u' := u.(name := name, bio := bio,
                     image := if image != "" then Some(image) else u.image,
                     skills := if u.role == Mentor && skills.Some? && skills.value != [] then skills else u.skills);
        Transition(Db(db.users[callerId - 1 := u'], db.requests), Ok(u'))
  }

  /** The mentor directory filter: role mentor and, when a skill is given, that skill among theirs. */
  predicate Listed(u: User, skill: string) {
    u.role == Mentor && (skill == "" || (u.skills.Some? && skill in u.skills.value))
  }

  /** Without a skill (`if skill:` is false for "") the directory holds every mentor. */
  lemma {:induction false} NoSkillListsEveryMentor(users: seq<User>)
    ensures Seqs.Filter(users, u => Listed(u, "")) == Seqs.Filter(users, (u: User) => u.role == Mentor)
  {
    if users != [] {
      NoSkillListsEveryMentor(users[1..]);
    }
  }

  ghost predicate SortedByName(us: seq<User>) {
    forall i, j :: 0 <= i < j < |us| ==> Text.LexLe(us[i].name, us[j].name)
  }

  /** Every name in `us` is at least `name`. */
  ghost predicate NamesAtLeast(name: string, us: seq<User>) {
    forall j :: 0 <= j < |us| ==> Text.LexLe(name, us[j].name)
  }

  function InsertByName(u: User, us: seq<User>): seq<User> {
    if us == [] || Text.LexLe(u.name, us[0].name) then [u] + us
    else [us[0]] + InsertByName(u, us[1..])
  }

  /** `ORDER BY name`, as an insertion sort. */
  function SortByName(us: seq<User>): seq<User> {
    if us == [] then [] else InsertByName(us[0], SortByName(us[1..]))
  }

  lemma SortedCons(x: User, us: seq<User>)
    requires SortedByName(us) && NamesAtLeast(x.name, us)
    ensures SortedByName([x] + us)
  {
    forall i, j | 0 <= i < j < |[x] + us| ensures Text.LexLe(([x] + us)[i].name, ([x] + us)[j].name) {
      assert ([x] + us)[j] == us[j - 1];
      if i > 0 {
        assert ([x] + us)[i] == us[i - 1];
      }
    }
  }

  /** Placing a name no greater than the head before a sorted list keeps it sorted. */
  lemma LexLeChain(name: string, us: seq<User>)
    requires SortedByName(us) && us != [] && Text.LexLe(name, us[0].name)
    ensures NamesAtLeast(name, us)
  {
    forall j | 0 <= j < |us| ensures Text.LexLe(name, us[j].name) {
      if j > 0 {
        Text.LexLeTransitive(name, us[0].name, us[j].name);
      }
    }
  }

  lemma {:induction false} InsertKeepsBound(name: string, u: User, us: seq<User>)
    requires NamesAtLeast(name, us) && Text.LexLe(name, u.name)
    ensures NamesAtLeast(name, InsertByName(u, us))
  {
    if us != [] && !Text.LexLe(u.name, us[0].name) {
      InsertKeepsBound(name, u, us[1..]);
      var rest := InsertByName(u, us[1..]);
      assert forall j :: 0 < j < |rest| + 1 ==> ([us[0]] + rest)[j] == rest[j - 1];
    }
  }

  lemma {:induction false} InsertByNameSorted(u: User, us: seq<User>)
    requires SortedByName(us)
    ensures SortedByName(InsertByName(u, us))
    ensures multiset(InsertByName(u, us)) == multiset(us) + multiset{u}
  {
    if us == [] {
    } else if Text.LexLe(u.name, us[0].name) {
      LexLeChain(u.name, us);
      SortedCons(u, us);
    } else {
      Text.LexLeTotal(u.name, us[0].name);
      assert SortedByName(us[1..]);
      assert NamesAtLeast(us[0].name, us[1..]);
      InsertByNameSorted(u, us[1..]);
      InsertKeepsBound(us[0].name, u, us[1..]);
      SortedCons(us[0], InsertByName(u, us[1..]));
      assert us == [us[0]] + us[1..];
    }
  }

  lemma {:induction false} SortByNameSorted(us: seq<User>)
    ensures SortedByName(SortByName(us))
    ensures multiset(SortByName(us)) == multiset(us)
  {
    if us != [] {
      SortByNameSorted(us[1..]);
      InsertByNameSorted(us[0], SortByName(us[1..]));
      assert us == [us[0]] + us[1..];
    }
  }

  /**
   * GET /mentors, mentees only: the users with role mentor (and the given skill, when one is
   * given), ordered by name for `orderBy` "name" and by id otherwise.
   */
  function Mentors(db: Db, callerId: int, skill: string, orderBy: string): (r: Result<seq<User>>)
    ensures r.Err? <==> Authorize(db.users, callerId, Mentee).Some?
    ensures r.Err? ==> r.error == Authorize(db.users, callerId, Mentee).value
  {
    match Authorize(db.users, callerId, Mentee)
    case Some(e) => Err(e)
    case None =>
      var listed := Seqs.Filter(db.users, u => Listed(u, skill));
      Ok(if orderBy == "name" then SortByName(listed) else listed)
  }

  /**
   * What a successful directory query lists: exactly the listed mentors, each as often as
   * stored; sorted by name for "name"; in id order for any value other than "name" and "skill".
   */
  lemma MentorsListing(db: Db, callerId: int, skill: string, orderBy: string)
    requires Mentors(db, callerId, skill, orderBy).Ok?
    ensures var r := Mentors(db, callerId, skill, orderBy).value;
            && (forall u :: u in r <==> u in db.users && Listed(u, skill))
            && multiset(r) == multiset(Seqs.Filter(db.users, u => Listed(u, skill)))
            && (orderBy == "name" ==> SortedByName(r))
            && (orderBy != "name" && orderBy != "skill" ==> Seqs.IsSubsequence(r, db.users))
            && (orderBy != "name" && orderBy != "skill" && UsersNumbered(db.users) ==>
                  forall i, j :: 0 <= i < j < |r| ==> r[i].id < r[j].id)
  {
    var listed := Seqs.Filter(db.users, u => Listed(u, skill));
    var r := Mentors(db, callerId, skill, orderBy).value;
    SortByNameSorted(listed);
    Seqs.FilterIsSubsequence(db.users, u => Listed(u, skill));
    ListedInIdOrder(db.users, skill);
    assert forall u :: u in r <==> u in multiset(r);
    assert forall u :: u in listed <==> u in multiset(listed);
  }

  /** Filtering a table numbered in insertion order leaves its rows in increasing id order. */
  lemma ListedInIdOrder(users: seq<User>, skill: string)
    ensures UsersNumbered(users) ==>
              var listed := Seqs.Filter(users, u => Listed(u, skill));
              forall i, j :: 0 <= i < j < |listed| ==> listed[i].id < listed[j].id
  {
    if UsersNumbered(users) {
      Seqs.FilterIsSubsequence(users, u => Listed(u, skill));
      Seqs.SubsequenceKeepsIncreasing(Seqs.Filter(users, u => Listed(u, skill)), users, (u: User) => u.id);
    }
  }

  // ---------------------------------------------------------------------------------------
  // The match-request ledger

  /**
   * Why POST /match-requests refuses: the caller is not a mentee, `mentorId` is not a user with
   * role mentor, or the caller already has a pending request, checked in that order.
   */
  function CreateCheck(db: Db, callerId: int, mentorId: int): (r: Option<Error>)
    ensures r == None <==> HasRole(db.users, callerId, Mentee) && HasRole(db.users, mentorId, Mentor)
                           && !HasPendingFrom(db.requests, callerId)
    ensures r.Some? && Authorize(db.users, callerId, Mentee).Some? ==> r == Authorize(db.users, callerId, Mentee)
    ensures r.Some? && Authorize(db.users, callerId, Mentee).None? ==> r == Some(BadRequest)
  {
    match Authorize(db.users, callerId, Mentee)
    case Some(e) => Some(e)
    case None =>
      if !HasRole(db.users, mentorId, Mentor) then Some(BadRequest)
      else if HasPendingFrom(db.requests, callerId) then Some(BadRequest)
      else None
  }

  /**
   * POST /match-requests. The new row's mentee is the caller; the body's `menteeId` is not read.
   */
  function Create(db: Db, callerId: int, mentorId: int, menteeId: int, message: string): (t: Transition<MatchRequest>)
    ensures t.reply.Err? <==> CreateCheck(db, callerId, mentorId).Some?
    ensures t.reply.Err? ==> t.db == db && t.reply.error == CreateCheck(db, callerId, mentorId).value
    ensures t.reply.Ok? ==>
              var q := t.reply.value;
              && t.db == Db(db.users, db.requests + [q])
              && q == MatchRequest(|db.requests| + 1, mentorId, callerId, message, Pending)
  {
    match CreateCheck(db, callerId, mentorId)
    case Some(e) => Transition(db, Err(e))
    case None =>
      var q := MatchRequest(|db.requests| + 1, mentorId, callerId, message, Pending);
      Transition(Db(db.users, db.requests + [q]), Ok(q))
  }

  /**
   * Why PUT /match-requests/{rid}/accept refuses: the caller is not a mentor, no request with that
   * id belongs to them, or they already have an accepted request. The target's own status is not
   * examined. On success, the position of the target.
   */
  function AcceptCheck(db: Db, callerId: int, rid: int): (r: Result<nat>)
    ensures r.Ok? <==> HasRole(db.users, callerId, Mentor) && FindOwned(db.requests, rid, callerId, Mentor).Some?
                       && !HasAcceptedFor(db.requests, callerId)
    ensures r.Ok? ==> r.value == rid - 1 && r.value < |db.requests| && db.requests[r.value].mentorId == callerId
    ensures r.Err? && Authorize(db.users, callerId, Mentor).Some? ==> Some(r.error) == Authorize(db.users, callerId, Mentor)
    ensures r == Err(NotFound) <==> HasRole(db.users, callerId, Mentor) && FindOwned(db.requests, rid, callerId, Mentor).None?
    ensures r == Err(BadRequest) <==> HasRole(db.users, callerId, Mentor) && FindOwned(db.requests, rid, callerId, Mentor).Some?
                                      && HasAcceptedFor(db.requests, callerId)
  {
    match Authorize(db.users, callerId, Mentor)
    case Some(e) => Err(e)
    case None =>
      match FindOwned(db.requests, rid, callerId, Mentor)
      case None => Err(NotFound)
      case Some(k) => if HasAcceptedFor(db.requests, callerId) then Err(BadRequest) else Ok(k)
  }

  /** A request the cascade rejects: another pending request of the same mentor. */
  predicate Competing(q: MatchRequest, mentorId: int, rid: int) {
    q.mentorId == mentorId && q.id != rid && q.status == Pending
  }

  /** One row after the accept: the target is accepted, a competing row rejected, any other kept. */
  function Settle(q: MatchRequest, isTarget: bool, mentorId: int, rid: int): MatchRequest {
    if isTarget then q.(status := Accepted)
    else if Competing(q, mentorId, rid) then q.(status := Rejected)
    else q
  }

  /** The rows after the accept of the request at `target` (id `rid`) by `mentorId`. */
  function Cascade(requests: seq<MatchRequest>, mentorId: int, rid: int, target: nat): seq<MatchRequest> {
    seq(|requests|, k requires 0 <= k < |requests| => Settle(requests[k], k == target, mentorId, rid))
  }

  /**
   * PUT /match-requests/{rid}/accept: the target becomes accepted and every other pending
   * request of the same mentor becomes rejected; nothing else changes.
   */
  function Accept(db: Db, callerId: int, rid: int): (t: Transition<MatchRequest>)
    ensures t.reply.Err? <==> AcceptCheck(db, callerId, rid).Err?
    ensures t.reply.Err? ==> t.db == db && t.reply.error == AcceptCheck(db, callerId, rid).error
    ensures t.reply.Ok? ==>
              && t.db.users == db.users && |t.db.requests| == |db.requests|
              && t.reply.value == db.requests[rid - 1].(status := Accepted)
              && t.db.requests[rid - 1] == t.reply.value
              && (forall k :: 0 <= k < |db.requests| && k != rid - 1 && db.requests[k].id != rid
                              && db.requests[k].mentorId == callerId && db.requests[k].status == Pending ==>
                    t.db.requests[k] == db.requests[k].(status := Rejected))
              && (forall k :: 0 <= k < |db.requests| && k != rid - 1
                              && !(db.requests[k].id != rid && db.requests[k].mentorId == callerId
                                   && db.requests[k].status == Pending) ==>
                    t.db.requests[k] == db.requests[k])
  {
    match AcceptCheck(db, callerId, rid)
    case Err(e) => Transition(db, Err(e))
    case Ok(k) =>
      var requests := Cascade(db.requests, callerId, rid, k);
      Transition(Db(db.users, requests), Ok(requests[k]))
  }

  /** The rows after rejecting every competitor of request `rid` for `mentorId`. */
  function RejectAll(requests: seq<MatchRequest>, mentorId: int, rid: int): (r: seq<MatchRequest>)
    ensures |r| == |requests|
  {
    seq(|requests|, k requires 0 <= k < |requests| =>
      if Competing(requests[k], mentorId, rid) then requests[k].(status := Rejected) else requests[k])
  }

  /** The cascade is the two steps of the handler: accept the target, then reject its competitors. */
  lemma CascadeInSteps(requests: seq<MatchRequest>, mentorId: int, rid: int, target: nat)
    requires target < |requests|
    ensures Cascade(requests, mentorId, rid, target)
            == RejectAll(requests[target := requests[target].(status := Accepted)], mentorId, rid)
  {
  }

  /** A successful accept is the cascade over the table, replying with the target's new row. */
  lemma AcceptIsCascade(db: Db, callerId: int, rid: int)
    requires AcceptCheck(db, callerId, rid).Ok?
    ensures var t := AcceptCheck(db, callerId, rid).value;
            var rs := Cascade(db.requests, callerId, rid, t);
            Accept(db, callerId, rid) == Transition(Db(db.users, rs), Ok(rs[t]))
  {
  }

  /** Reply and database after writing status `s` into the request at position `k`. */
  function WriteStatus(db: Db, k: nat, s: Status): (t: Transition<MatchRequest>)
    requires k < |db.requests|
  {
    var q := db.requests[k].(status := s);
    Transition(Db(db.users, db.requests[k := q]), Ok(q))
  }

  /** PUT /match-requests/{rid}/reject: the owning mentor's request becomes rejected, whatever it was. */
  function Reject(db: Db, callerId: int, rid: int): (t: Transition<MatchRequest>)
    ensures t.reply.Err? <==> !HasRole(db.users, callerId, Mentor) || FindOwned(db.requests, rid, callerId, Mentor).None?
    ensures t.reply.Err? && Authorize(db.users, callerId, Mentor).Some? ==> Some(t.reply.error) == Authorize(db.users, callerId, Mentor)
    ensures t.reply.Err? && Authorize(db.users, callerId, Mentor).None? ==> t.reply.error == NotFound
    ensures t.reply.Err? ==> t.db == db
    ensures t.reply.Ok? ==>
              && 1 <= rid <= |db.requests| && db.requests[rid - 1].mentorId == callerId
              && t.reply.value == db.requests[rid - 1].(status := Rejected)
              && t.db == Db(db.users, db.requests[rid - 1 := t.reply.value])
  {
    match Authorize(db.users, callerId, Mentor)
    case Some(e) => Transition(db, Err(e))
    case None =>
      match FindOwned(db.requests, rid, callerId, Mentor)
      case None => Transition(db, Err(NotFound))
      case Some(k) => WriteStatus(db, k, Rejected)
  }

  /** DELETE /match-requests/{rid}: the owning mentee's request becomes cancelled, whatever it was. */
  function Cancel(db: Db, callerId: int, rid: int): (t: Transition<MatchRequest>)
    ensures t.reply.Err? <==> !HasRole(db.users, callerId, Mentee) || FindOwned(db.requests, rid, callerId, Mentee).None?
    ensures t.reply.Err? && Authorize(db.users, callerId, Mentee).Some? ==> Some(t.reply.error) == Authorize(db.users, callerId, Mentee)
    ensures t.reply.Err? && Authorize(db.users, callerId, Mentee).None? ==> t.reply.error == NotFound
    ensures t.reply.Err? ==> t.db == db
    ensures t.reply.Ok? ==>
              && 1 <= rid <= |db.requests| && db.requests[rid - 1].menteeId == callerId
              && t.reply.value == db.requests[rid - 1].(status := Cancelled)
              && t.db == Db(db.users, db.requests[rid - 1 := t.reply.value])
  {
    match Authorize(db.users, callerId, Mentee)
    case Some(e) => Transition(db, Err(e))
    case None =>
      match FindOwned(db.requests, rid, callerId, Mentee)
      case None => Transition(db, Err(NotFound))
      case Some(k) => WriteStatus(db, k, Cancelled)
  }

  /** GET /match-requests/incoming, mentors only: the requests addressed to the caller, in stored order. */
  function Incoming(db: Db, callerId: int): (r: Result<seq<MatchRequest>>)
    ensures r.Err? <==> Authorize(db.users, callerId, Mentor).Some?
    ensures r.Err? ==> r.error == Authorize(db.users, callerId, Mentor).value
    ensures r.Ok? ==> forall q :: q in r.value <==> q in db.requests && q.mentorId == callerId
    ensures r.Ok? ==> Seqs.IsSubsequence(r.value, db.requests)
  {
    match Authorize(db.users, callerId, Mentor)
    case Some(e) => Err(e)
    case None =>
      Seqs.FilterIsSubsequence(db.requests, (q: MatchRequest) => q.mentorId == callerId);
      Ok(Seqs.Filter(db.requests, (q: MatchRequest) => q.mentorId == callerId))
  }

  function ToOutgoing(q: MatchRequest): OutgoingRequest {
    OutgoingRequest(q.id, q.mentorId, q.menteeId, q.status)
  }

  /** GET /match-requests/outgoing, mentees only: the caller's own requests without messages, in stored order. */
  function Outgoing(db: Db, callerId: int): (r: Result<seq<OutgoingRequest>>)
    ensures r.Err? <==> Authorize(db.users, callerId, Mentee).Some?
    ensures r.Err? ==> r.error == Authorize(db.users, callerId, Mentee).value
    ensures r.Ok? ==> forall o :: o in r.value <==>
                        exists q :: q in db.requests && q.menteeId == callerId && ToOutgoing(q) == o
    ensures r.Ok? ==> Seqs.IsSubsequence(r.value, Seqs.Map(db.requests, ToOutgoing))
  {
    match Authorize(db.users, callerId, Mentee)
    case Some(e) => Err(e)
    case None =>
      var mine := Seqs.Filter(db.requests, (q: MatchRequest) => q.menteeId == callerId);
      Seqs.FilterIsSubsequence(db.requests, (q: MatchRequest) => q.menteeId == callerId);
      Seqs.MapPreservesSubsequence(mine, db.requests, ToOutgoing);
      var r := Seqs.Map(mine, ToOutgoing);
      assert forall o :: o in r ==> exists q :: q in db.requests && q.menteeId == callerId && ToOutgoing(q) == o by {
        forall o | o in r ensures exists q :: q in db.requests && q.menteeId == callerId && ToOutgoing(q) == o {
          var k :| 0 <= k < |r| && r[k] == o;
          assert mine[k] in mine;
        }
      }
      assert forall q :: q in db.requests && q.menteeId == callerId ==> ToOutgoing(q) in r by {
        forall q | q in db.requests && q.menteeId == callerId ensures ToOutgoing(q) in r {
          var k :| 0 <= k < |mine| && mine[k] == q;
          assert r[k] == ToOutgoing(q);
        }
      }
      Ok(r)
  }
}
