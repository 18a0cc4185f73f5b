/**
 * The mentor directory page (frontend/src/Mentors.tsx): the client-side search over the
 * loaded mentors, and the two guards on sending a mentoring request.
 */
module MentorSearch {
  import opened Wrappers
  import Seqs
  import Text

  /** The fields of a directory entry that the search reads. */
  datatype Mentor = Mentor(id: int, name: string, company: Option<string>, skills: Option<seq<string>>)

  predicate SomeSkillContains(skills: seq<string>, term: string) {
    exists k | 0 <= k < |skills| :: Text.Contains(Text.Lower(skills[k]), term)
  }

  /**
   * The predicate given to `mentors.filter`. An empty company string is falsy in JavaScript and
   * so never matches; an empty skills array is truthy but has no skill to match.
   */
  predicate Matches(m: Mentor, term: string) {
    var t := Text.Lower(term);
    || Text.Contains(Text.Lower(m.name), t)
    || (m.company.Some? && m.company.value != "" && Text.Contains(Text.Lower(m.company.value), t))
    || (m.skills.Some? && SomeSkillContains(m.skills.value, t))
  }

  /** The same condition stated with substrings instead of the search the code performs. */
  ghost predicate MatchesSubstring(m: Mentor, term: string) {
    var t := Text.Lower(term);
    || Text.IsSubstring(t, Text.Lower(m.name))
    || (m.company.Some? && m.company.value != "" && Text.IsSubstring(t, Text.Lower(m.company.value)))
    || (m.skills.Some? && exists k :: 0 <= k < |m.skills.value| && Text.IsSubstring(t, Text.Lower(m.skills.value[k])))
  }

  lemma MatchesIff(m: Mentor, term: string)
    ensures Matches(m, term) <==> MatchesSubstring(m, term)
  {
    var t := Text.Lower(term);
    Text.ContainsIff(Text.Lower(m.name), t);
    if m.company.Some? {
      Text.ContainsIff(Text.Lower(m.company.value), t);
    }
    if m.skills.Some? {
      forall k | 0 <= k < |m.skills.value|
        ensures Text.Contains(Text.Lower(m.skills.value[k]), t) <==> Text.IsSubstring(t, Text.Lower(m.skills.value[k]))
      {
        Text.ContainsIff(Text.Lower(m.skills.value[k]), t);
      }
    }
  }

  /** `filteredMentors`: the matching mentors, in the order loaded, each as often as loaded. */
  function FilteredMentors(mentors: seq<Mentor>, term: string): (r: seq<Mentor>)
    ensures Seqs.IsSubsequence(r, mentors)
    ensures forall m :: m in r <==> m in mentors && MatchesSubstring(m, term)
    ensures forall m :: multiset(r)[m] == (if Matches(m, term) then multiset(mentors)[m] else 0)
  {
    var r := Seqs.Filter(mentors, m => Matches(m, term));
    Seqs.FilterIsSubsequence(mentors, m => Matches(m, term));
    forall m
      ensures multiset(r)[m] == (if Matches(m, term) then multiset(mentors)[m] else 0)
      ensures Matches(m, term) <==> MatchesSubstring(m, term)
    {
      Seqs.FilterMultiplicity(mentors, m => Matches(m, term), m);
      MatchesIff(m, term);
    }
    r
  }

  /** An empty search box keeps every mentor, since every name contains the empty string. */
  lemma EmptyTermKeepsAll(mentors: seq<Mentor>)
    ensures FilteredMentors(mentors, "") == mentors
  {
    forall k | 0 <= k < |mentors| ensures Matches(mentors[k], "") {
      Text.ContainsEmpty(Text.Lower(mentors[k].name));
    }
    Seqs.FilterKeepsAll(mentors, m => Matches(m, ""));
  }

  /** The request form: the chosen mentor (`null` when none) and the typed message. */
  datatype Draft = Draft(mentorId: Option<int>, message: string)

  /** `handleRequestMentoring`: only a signed-in mentee opens the form, with an empty message. */
  function OpenRequest(role: Option<string>, mentorId: int): (r: Option<Draft>)
    ensures r.Some? <==> role == Some("mentee")
    ensures r.Some? ==> r.value.mentorId == Some(mentorId) && r.value.message == ""
  {
    if role != Some("mentee") then None else Some(Draft(Some(mentorId), ""))
  }

  /** The body `matchRequestApi.create` posts. */
  datatype Submission = Submission(mentorId: int, message: string)

  /**
   * `handleSubmitRequest`: refused when no mentor is chosen (`null`, or the falsy id 0) or the
   * message is blank after trimming; otherwise the untrimmed message is sent.
   */
  function SubmitRequest(d: Draft): (r: Option<Submission>)
    ensures r.Some? <==> d.mentorId.Some? && d.mentorId.value != 0
                         && exists k :: 0 <= k < |d.message| && !Text.IsSpace(d.message[k])
    ensures r.Some? ==> r.value == Submission(d.mentorId.value, d.message)
  {
    if d.mentorId.None? || d.mentorId.value == 0 || Text.Trim(d.message) == "" then None
    else Some(Submission(d.mentorId.value, d.message))
  }

  /** A form just opened cannot be submitted until something other than white space is typed. */
  lemma FreshDraftRefused(role: Option<string>, mentorId: int)
    requires OpenRequest(role, mentorId).Some?
    ensures SubmitRequest(OpenRequest(role, mentorId).value).None?
  {
  }
}
