/**
 * The database of the backend as an object whose tables the handlers change in place. Each
 * method performs the writes of one endpoint and is proved to leave the tables and return the
 * reply that the matching transition of `Ledger` describes; `Valid` is the invariant of
 * `LedgerInvariants`, kept by every method.
 */
module LedgerStore {
  import opened Wrappers
  import opened Ledger
  import opened LedgerInvariants

  class Store {
    var users: seq<User>
    var requests: seq<MatchRequest>

    function State(): Db
      reads this
    {
      Db(users, requests)
    }

    ghost predicate Valid()
      reads this
    {
      Consistent(State())
    }

    /** A fresh database: both tables empty. (`RunKeepsConsistent` covers any consistent start.) */
    constructor ()
      ensures Valid() && users == [] && requests == []
    {
      users := [];
      requests := [];
    }

    /** POST /signup (backend/main.py:225-251). */
    method Signup(email: string, name: string, role: string) returns (r: Result<User>)
      requires Valid()
      modifies this
      ensures Valid()
      ensures Transition(State(), r) == Ledger.Signup(old(State()), email, name, role)
    {
      SignupKeepsConsistent(State(), email, name, role);
      var parsed := ParseRole(role);
      if parsed.None? {
        return Err(BadRequest);
      }
      if EmailTaken(users, email) {
        return Err(BadRequest);
      }
      var u := User(|users| + 1, email, name, parsed.value, "",
                    None, if parsed.value == Mentor then Some([]) else None);
      users := users + [u];
      r := Ok(u);
    }

    /** PUT /profile (backend/main.py:297-354): the caller's row is updated field by field. */
    method UpdateProfile(callerId: int, name: string, bio: string, image: string,
                         skills: Option<seq<string>>, imageValid: bool) returns (r: Result<User>)
      requires Valid()
      modifies this
      ensures Valid()
      ensures Transition(State(), r) == Ledger.UpdateProfile(old(State()), callerId, name, bio, image, skills, imageValid)
    {
      UpdateProfileKeepsConsistent(State(), callerId, name, bio, image, skills, imageValid);
      if !(1 <= callerId <= |users|) {
        return Err(Unauthorized);
      }
      if image != "" && !imageValid {
        return Err(BadRequest);
      }
      var u := users[callerId - 1];
      u := u.(name := name);
      u := u.(bio := bio);
      if image != "" {
        u := u.(image := Some(image));
      }
      if u.role == Mentor && skills.Some? && skills.value != [] {
        u := u.(skills := skills);
      }
      users := users[callerId - 1 := u];
      r := Ok(u);
    }

    /** POST /match-requests (backend/main.py:421-457). */
    method CreateMatchRequest(callerId: int, mentorId: int, menteeId: int, message: string)
      returns (r: Result<MatchRequest>)
      requires Valid()
      modifies this
      ensures Valid()
      ensures Transition(State(), r) == Create(old(State()), callerId, mentorId, menteeId, message)
    {
      CreateKeepsConsistent(State(), callerId, mentorId, menteeId, message);
      var refusal := CreateCheck(State(), callerId, mentorId);
      if refusal.Some? {
        return Err(refusal.value);
      }
      var q := MatchRequest(|requests| + 1, mentorId, callerId, message, Pending);
      requests := requests + [q];
      r := Ok(q);
    }

    /**
     * PUT /match-requests/{rid}/accept (backend/main.py:494-537): the target is set to accepted,
     * then a pass over the table rejects the mentor's other pending requests.
     */
    method AcceptMatchRequest(callerId: int, rid: int) returns (r: Result<MatchRequest>)
      requires Valid()
      modifies this
      ensures Valid()
      ensures Transition(State(), r) == Accept(old(State()), callerId, rid)
    {
      AcceptKeepsConsistent(State(), callerId, rid);
      var check := AcceptCheck(State(), callerId, rid);
      if check.Err? {
        return Err(check.error);
      }
      var t := check.value;
      AcceptIsCascade(State(), callerId, rid);
      CascadeInSteps(requests, callerId, rid, t);
      requests := requests[t := requests[t].(status := Accepted)];
      RejectCompeting(callerId, rid);
      r := Ok(requests[t]);
    }

    /** The pass over the table that rejects the other pending requests of the mentor (main.py:520-527). */
    method RejectCompeting(mentorId: int, rid: int)
      modifies this
      ensures users == old(users)
      ensures requests == RejectAll(old(requests), mentorId, rid)
    {
      var k := 0;
      while k < |requests|
        invariant 0 <= k <= |requests| == |old(requests)|
        invariant users == old(users)
        invariant forall j :: 0 <= j < k ==> requests[j] == RejectAll(old(requests), mentorId, rid)[j]
        invariant forall j :: k <= j < |requests| ==> requests[j] == old(requests)[j]
      {
        if requests[k].mentorId == mentorId && requests[k].id != rid && requests[k].status == Pending {
          requests := requests[k := requests[k].(status := Rejected)];
        }
        k := k + 1;
      }
    }

    /** PUT /match-requests/{rid}/reject (backend/main.py:539-561). */
    method RejectMatchRequest(callerId: int, rid: int) returns (r: Result<MatchRequest>)
      requires Valid()
      modifies this
      ensures Valid()
      ensures Transition(State(), r) == Reject(old(State()), callerId, rid)
    {
      RejectKeepsConsistent(State(), callerId, rid);
      var refusal := Authorize(users, callerId, Mentor);
      if refusal.Some? {
        return Err(refusal.value);
      }
      var found := FindOwned(requests, rid, callerId, Mentor);
      if found.None? {
        return Err(NotFound);
      }
      requests := requests[found.value := requests[found.value].(status := Rejected)];
      r := Ok(requests[found.value]);
    }

    /** DELETE /match-requests/{rid} (backend/main.py:563-585). */
    method CancelMatchRequest(callerId: int, rid: int) returns (r: Result<MatchRequest>)
      requires Valid()
      modifies this
      ensures Valid()
      ensures Transition(State(), r) == Cancel(old(State()), callerId, rid)
    {
      CancelKeepsConsistent(State(), callerId, rid);
      var refusal := Authorize(users, callerId, Mentee);
      if refusal.Some? {
        return Err(refusal.value);
      }
      var found := FindOwned(requests, rid, callerId, Mentee);
      if found.None? {
        return Err(NotFound);
      }
      requests := requests[found.value := requests[found.value].(status := Cancelled)];
      r := Ok(requests[found.value]);
    }
  }
}
