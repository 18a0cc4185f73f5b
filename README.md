# Mentor–mentee matching: a verified model

The system matches mentors with mentees. Users sign up as one of the two roles and edit their
profiles. Mentees browse a directory of mentors and send match requests. Mentors accept or reject
the requests addressed to them, and mentees may cancel their own. Accepting one request also rejects
every other pending request for the same mentor (the *cascade*). The frontend filters the loaded
directory by a search term, guards the request form, checks the avatar file a user picks, and turns
the comma-separated skills box into a list.

The model has these modules:

- `Ledger` (`ledger.dfy`): each backend endpoint of `backend/main.py` is a pure function. It maps
  the database value `Db` (the `users` and `match_requests` tables) and the authenticated caller's
  id to a `Transition`, which holds the new database and a reply. The reply is the row, or an HTTP
  error kind: `Unauthorized` 401, `Forbidden` 403, `NotFound` 404 or `BadRequest` 400. Rows are
  numbered 1, 2, 3, … in insertion order, which is the SQLite rowid of a table that never deletes.
- `LedgerStore` (`ledger_store.dfy`): the class `Store`, whose fields `users` and `requests` are
  the tables. Its methods change them in place, as the handlers do through the session. Each method
  is proved to leave exactly the state and reply of the matching `Ledger` function. The accept
  cascade is a loop over the table.
- `LedgerInvariants` (`ledger_invariants.dfy`): the invariant `Consistent`. It says:
  - ids are positions;
  - emails are unique;
  - every request names a mentor and a mentee of those roles;
  - no mentor has two accepted requests;
  - no mentee has two pending requests.

  The module proves that every writing endpoint preserves `Consistent`, and so does any sequence of
  calls starting from the empty database. It also proves consequences such as idempotent
  reject/cancel and the absence of self-requests.
- `MentorSearch` (`mentors.dfy`) and `ProfileForm` (`profile.dfy`): the logic of
  `frontend/src/Mentors.tsx` and `frontend/src/Profile.tsx`.
- `Seqs`, `Text` and `Wrappers`: helpers.
  - `Seqs`: filter, map and subsequence.
  - `Text`: JavaScript's `includes`, `trim`, `split`, `join` and `toLowerCase`, plus SQLite's
    `BINARY` string order.
  - `Wrappers`: `Option`.

The model follows the code as written wherever the code is looser than the documented design. The
code differs from the design in these ways:

- Create refuses only a mentee who has a *pending* request. A mentee whose request was accepted may
  send another, and a mentor who already has an accepted mentee may still receive requests.
- Create has no self-request guard.
- Create ignores the body's `menteeId`.
- Accept does not check that its target is pending, so it can bring a cancelled or rejected request
  back as accepted.
- Reject and cancel overwrite any status. A repeated cancel succeeds and changes nothing.

Because of this, the invariant the code keeps is "at most one *pending* request per mentee", not
"at most one pending-or-accepted". `LedgerInvariants.AcceptRevivesCancelled` and
`LedgerInvariants.CreateAfterAccepted` show the looser behaviour on concrete tables.

## Model

| member | source | states |
|---|---|---|
| Ledger.UserById | backend/main.py:214-218 | the caller lookup finds the row whose id is asked exactly when such a row exists |
| Ledger.Authorize | backend/main.py:214-218 | no error exactly when the caller exists with the required role; 401 for an unknown caller (the lookup of get_current_user), 403 for the wrong role (the role check opening each endpoint, main.py lines 377, 423, 461, 479, 496, 541 and 565) |
| Ledger.FindOwned | backend/main.py:499-505 | the request with that id is found exactly when it exists and the caller owns it on the given side |
| Ledger.Signup | backend/main.py:225-251 | 400 for an invalid role or a registered email, with nothing written; otherwise one user is appended with the next id, an empty bio, no image, and empty skills for a mentor only |
| Ledger.UpdateProfile | backend/main.py:297-354 | 401 for an unknown caller; 400 for an image the decoder refuses; success exactly when the caller exists and sends no image or a valid one; then only the caller's row changes: name and bio replaced, the image kept when none is sent, and skills replaced only for a mentor sending a non-empty list |
| Ledger.Mentors | backend/main.py:373-380 | mentees only: 401/403 otherwise |
| Ledger.NoSkillListsEveryMentor | backend/main.py:380-384 | without a skill parameter the directory filter keeps exactly the users with role mentor |
| Ledger.MentorsListing | backend/main.py:380-395 | the listing holds exactly the mentors with the requested skill, each as often as stored; sorted by name for "name"; in id order for any value other than "name" and "skill" |
| Ledger.CreateCheck | backend/main.py:421-437 | create is allowed exactly when the caller is a mentee, the target is a mentor, and the caller has no pending request; the role error comes first, then 400 |
| Ledger.Create | backend/main.py:421-457 | on refusal nothing changes; otherwise one pending request from the caller (not the body's menteeId) is appended with the next id |
| Ledger.AcceptCheck | backend/main.py:494-514 | accept is allowed exactly when the caller is a mentor, owns the request, and has no accepted request; 404 and 400 exactly in the other two cases; the target's own status is not examined |
| Ledger.Accept | backend/main.py:494-537 | on success the target becomes accepted, every other pending request of the mentor becomes rejected, and every other row and the users are unchanged |
| Ledger.CascadeInSteps | backend/main.py:516-527 | the cascade equals the handler's two steps: set the target to accepted, then reject every other pending request of the mentor |
| Ledger.AcceptIsCascade | backend/main.py:494-537 | a successful accept writes the cascade over the table and replies with the target's new row |
| Ledger.Reject | backend/main.py:539-561 | the owning mentor's request becomes rejected whatever its status; 401/403/404 otherwise, with nothing written |
| Ledger.Cancel | backend/main.py:563-585 | the owning mentee's request becomes cancelled whatever its status; 401/403/404 otherwise, with nothing written |
| Ledger.Incoming | backend/main.py:459-475 | mentors only; exactly the requests addressed to the caller, in stored order |
| Ledger.Outgoing | backend/main.py:477-492 | mentees only; exactly the caller's own requests without their messages, in stored order |
| Ledger.InsertByNameSorted | backend/main.py:387-388 | inserting into a name-sorted list keeps it sorted |
| Ledger.SortByNameSorted | backend/main.py:387-388 | ordering by name yields a name-sorted permutation of the listed mentors |
| Ledger.ListedInIdOrder | backend/main.py:391-392 | the default order lists the mentors by increasing id |
| LedgerStore.Store.Signup | backend/main.py:225-251 | the new tables and reply are those of Ledger.Signup; Consistent is kept |
| LedgerStore.Store.UpdateProfile | backend/main.py:297-354 | the field-by-field update gives the tables and reply of Ledger.UpdateProfile; Consistent is kept |
| LedgerStore.Store.CreateMatchRequest | backend/main.py:421-457 | the tables and reply are those of Ledger.Create; Consistent is kept |
| LedgerStore.Store.AcceptMatchRequest | backend/main.py:494-537 | the status write and the rejection loop give the tables and reply of Ledger.Accept; Consistent is kept |
| LedgerStore.Store.RejectCompeting | backend/main.py:519-527 | the loop rejects exactly the other pending requests of the mentor and leaves everything else as it was |
| LedgerStore.Store.RejectMatchRequest | backend/main.py:539-561 | the tables and reply are those of Ledger.Reject; Consistent is kept |
| LedgerStore.Store.CancelMatchRequest | backend/main.py:563-585 | the tables and reply are those of Ledger.Cancel; Consistent is kept |
| LedgerStore.Store.constructor | backend/main.py:42-69 | the store starts with empty tables, which are Consistent |
| LedgerInvariants.SignupKeepsConsistent | backend/main.py:225-251 | signup keeps ids numbered and emails unique |
| LedgerInvariants.UpdateProfileKeepsConsistent | backend/main.py:297-354 | a profile update keeps every invariant: id, email and role are never changed |
| LedgerInvariants.CreateKeepsConsistent | backend/main.py:421-457 | create keeps both parties typed and keeps at most one pending request per mentee |
| LedgerInvariants.AcceptKeepsConsistent | backend/main.py:494-537 | accept with its cascade keeps at most one accepted request per mentor and one pending per mentee |
| LedgerInvariants.AppendPendingKeeps | backend/main.py:431-447 | appending a pending request between a mentor and a mentee who has no pending request keeps every invariant |
| LedgerInvariants.CascadeOneAccepted | backend/main.py:507-527 | the cascade of an accept by a mentor with no accepted request leaves one accepted request per mentor |
| LedgerInvariants.CascadeKeeps | backend/main.py:507-527 | that cascade keeps every invariant |
| LedgerInvariants.RejectKeepsConsistent | backend/main.py:539-561 | reject keeps every invariant |
| LedgerInvariants.CancelKeepsConsistent | backend/main.py:563-585 | cancel keeps every invariant |
| LedgerInvariants.RunKeepsConsistent | backend/main.py:225-585 | any sequence of writing calls keeps Consistent |
| LedgerInvariants.AtMostOneAcceptedEver | backend/main.py:507-527 | from empty tables, no mentor ever has two accepted requests and no mentee two pending ones |
| LedgerInvariants.NoSelfRequest | backend/main.py:423-429 | no request names one user as both mentor and mentee, although create has no such guard |
| LedgerInvariants.AcceptClearsPending | backend/main.py:516-527 | after an accept the mentor has an accepted request and no pending one |
| LedgerInvariants.SecondAcceptFails | backend/main.py:507-514 | a second accept by the same mentor fails |
| LedgerInvariants.CancelFreesMentor | backend/main.py:563-585 | cancelling an accepted request leaves its mentor with no accepted request |
| LedgerInvariants.CancelIdempotent | backend/main.py:563-585 | a repeated cancel succeeds with the same reply and changes nothing more |
| LedgerInvariants.RejectIdempotent | backend/main.py:539-561 | a repeated reject succeeds with the same reply and changes nothing more |
| LedgerInvariants.FailureChangesNothing | backend/main.py:225-585 | a refused write leaves both tables as they were |
| LedgerInvariants.AcceptRevivesCancelled | backend/main.py:499-517 | a cancelled request is accepted again, since the target's status is not checked |
| LedgerInvariants.CreateAfterAccepted | backend/main.py:431-437 | a mentee whose request was accepted can create another one |
| MentorSearch.MatchesIff | frontend/src/Mentors.tsx:33-39 | the search condition holds exactly when the lower-cased term is a substring of the name, of a non-empty company, or of some skill |
| MentorSearch.FilteredMentors | frontend/src/Mentors.tsx:33-39 | the matching mentors, each as often as loaded, in the loaded order |
| MentorSearch.EmptyTermKeepsAll | frontend/src/Mentors.tsx:33-39 | an empty search box shows every mentor |
| MentorSearch.OpenRequest | frontend/src/Mentors.tsx:41-49 | the form opens only for a mentee, with the chosen mentor and an empty message |
| MentorSearch.SubmitRequest | frontend/src/Mentors.tsx:51-61 | a request is sent exactly when a non-zero mentor is chosen and the message has a character other than white space; the message is sent untrimmed |
| MentorSearch.FreshDraftRefused | frontend/src/Mentors.tsx:41-55 | a form just opened cannot be submitted |
| ProfileForm.CheckImage | frontend/src/Profile.tsx:19-33 | no file does nothing; a type other than JPEG or PNG is refused before the size is looked at; a file over 1024*1024 bytes is refused; anything else is read |
| ProfileForm.SizeBoundary | frontend/src/Profile.tsx:29-33 | exactly 1048576 bytes is accepted and 1048577 is not |
| ProfileForm.SkillsArray | frontend/src/Profile.tsx:51-53 | undefined exactly for a non-mentor; otherwise the trimmed comma-separated pieces, in order, keeping every non-empty one as often as it occurs, each free of commas and edge white space |
| ProfileForm.SkillsRoundTrip | frontend/src/Profile.tsx:11-53 | skills that are non-empty, trimmed and comma-free, shown joined by ", ", are read back unchanged |
| Text.ContainsIff | frontend/src/Mentors.tsx:33-39 | `includes` holds exactly when the needle occurs at some position |
| Text.Trim | frontend/src/Mentors.tsx:52 | the result is a contiguous slice with no white space at either edge, dropping only white space; it is empty exactly when the input is all white space |
| Text.Split | frontend/src/Profile.tsx:52 | at least one piece, none containing the separator |
| Text.JoinSplit | frontend/src/Profile.tsx:52 | joining the pieces of a split with the separator gives the input back |
| Text.SplitJoin | frontend/src/Profile.tsx:52 | splitting a join of separator-free pieces gives the pieces back |
| Text.Lower | frontend/src/Mentors.tsx:33-39 | `toLowerCase`: same length, no ASCII capital left, each capital replaced by its small letter, every other character kept |
| Text.LowerIdempotent | frontend/src/Mentors.tsx:33-39 | lowering twice is lowering once |
| Text.LexLeAntisymmetric | backend/main.py:387-388 | two names each ordered before the other are equal |
| Text.LexLeTotal | backend/main.py:387-388 | the name order compares any two strings |
| Text.LexLeTransitive | backend/main.py:387-388 | the name order is transitive |

## Left out

- Passwords, bcrypt, the login endpoint and JWT issue/verification are not modelled. The caller is
  the id a valid token names, and a missing or invalid token is not represented.
- Ledger.UpdateProfile: the base64 decoding, the Pillow format and dimension checks and the 1 MB
  check are a boolean parameter `imageValid`. The model does not compute that verdict.
- Ledger.MentorsListing: for `orderBy` "skill" the contract states only which mentors are listed
  and how often, not their order. SQLite orders by the JSON text of the skills, which the model
  does not store.
- Ledger.Listed: the SQL `LIKE '%"skill"%'` over the JSON text is modelled as membership of the
  skill in the list. The two differ on skills containing `"`, `%` or `_`, and LIKE ignores ASCII
  case. They also differ on any skill that `json.dumps` escapes when it stores the list
  (backend/main.py:330): a non-ASCII skill (Korean text, say) is stored as `\uXXXX` escapes and
  a skill with `\` or a control character with a backslash escape, so the quoted pattern never
  matches and the backend lists no one, while the model lists every mentor with that skill.
- The reply shaping (`ProfileDetails`, `imageUrl`) and JSON (de)serialisation of skills are left
  out. A corrupt skills column read back as `[]` is not represented.
- Email syntax validation (`EmailStr`) and the request-validation error handler are not modelled.
  The model's `email` is the address as it stands after validation, which strips white space
  and lower-cases the domain; the uniqueness check compares that normalised form.
- The profile image endpoint, its placeholder redirect, the root route, CORS, routing, SQLAlchemy
  sessions, timestamps and concurrency between requests are left out. Each call is one atomic
  step.
- Text.Lower: `toLowerCase` is modelled for ASCII letters only, and characters outside A–Z are
  kept as they are.
- ProfileForm.CheckImage: the asynchronous `FileReader` read and the base64 prefix stripping are
  not modelled.
- React state, alerts, navigation and the API client (`api.ts`) are not modelled. The other pages
  are not part of this model, and neither is `backend/test-server.py`.
