/**
 * The profile page (frontend/src/Profile.tsx): the checks on a chosen image file and the
 * skills list built from the comma-separated text box.
 */
module ProfileForm {
  import opened Wrappers
  import Seqs
  import Text

  /** The largest accepted image, in bytes: 1 MB. */
  const MaxImageBytes: int := 1024 * 1024

  /** The two properties of the chosen `File` that `handleImageChange` reads. */
  datatype File = File(mimeType: string, size: int)

  /** What `handleImageChange` does with the selection: nothing, an error message, or read the file. */
  datatype ImageChoice = NoFile | WrongType | TooLarge | Chosen(file: File)

  predicate AllowedType(mimeType: string) {
    mimeType == "image/jpeg" || mimeType == "image/png"
  }

  /** The early returns of `handleImageChange`: the type is checked before the size. */
  function CheckImage(file: Option<File>): (r: ImageChoice)
    ensures r == NoFile <==> file.None?
    ensures r == WrongType <==> file.Some? && !AllowedType(file.value.mimeType)
    ensures r == TooLarge <==> file.Some? && AllowedType(file.value.mimeType) && file.value.size > MaxImageBytes
    ensures r.Chosen? <==> file.Some? && AllowedType(file.value.mimeType) && file.value.size <= MaxImageBytes
    ensures r.Chosen? ==> r.file == file.value
  {
    match file
    case None => NoFile
    case Some(f) =>
      if !AllowedType(f.mimeType) then WrongType
      else if f.size > 1024 * 1024 then TooLarge
      else Chosen(f)
  }

  /** Exactly 1024 * 1024 bytes is allowed; one byte more is not. */
  lemma SizeBoundary(mimeType: string)
    requires AllowedType(mimeType)
    ensures CheckImage(Some(File(mimeType, 1048576))).Chosen?
    ensures CheckImage(Some(File(mimeType, 1048577))) == TooLarge
  {
  }

  predicate NonEmpty(s: string) {
    |s| > 0
  }

  /**
   * `skillsArray` in `handleSubmit`: for a mentor, the comma-separated pieces of the text box,
   * trimmed, with the empty ones dropped; for anyone else, undefined.
   */
  function SkillsArray(role: string, skills: string): (r: Option<seq<string>>)
    ensures r.None? <==> role != "mentor"
    ensures r.Some? ==> forall k :: 0 <= k < |r.value| ==>
                          r.value[k] != "" && Text.IsTrimmed(r.value[k]) && ',' !in r.value[k]
    ensures r.Some? ==> forall s :: s in r.value <==> s in Seqs.Map(Text.Split(skills, ','), Text.Trim) && s != ""
    ensures r.Some? ==> Seqs.IsSubsequence(r.value, Seqs.Map(Text.Split(skills, ','), Text.Trim))
    ensures r.Some? ==> forall s :: multiset(r.value)[s] ==
                          (if s != "" then multiset(Seqs.Map(Text.Split(skills, ','), Text.Trim))[s] else 0)
  {
    if role != "mentor" then None
    else
      var pieces := Seqs.Map(Text.Split(skills, ','), Text.Trim);
      SkillsClean(skills);
      SkillsCounted(pieces);
      Some(Seqs.Filter(pieces, NonEmpty))
  }

  lemma SkillsClean(skills: string)
    ensures var pieces := Seqs.Map(Text.Split(skills, ','), Text.Trim);
            var r := Seqs.Filter(pieces, NonEmpty);
            && Seqs.IsSubsequence(r, pieces)
            && forall k :: 0 <= k < |r| ==> r[k] != "" && Text.IsTrimmed(r[k]) && ',' !in r[k]
  {
    var split := Text.Split(skills, ',');
    var pieces := Seqs.Map(split, Text.Trim);
    var r := Seqs.Filter(pieces, NonEmpty);
    Seqs.FilterIsSubsequence(pieces, NonEmpty);
    forall k | 0 <= k < |r| ensures r[k] != "" && Text.IsTrimmed(r[k]) && ',' !in r[k] {
      assert r[k] in r;
      var j :| 0 <= j < |pieces| && pieces[j] == r[k];
      assert pieces[j] == Text.Trim(split[j]);
      Text.TrimChars(split[j], ',');
    }
  }

  /** Dropping the empty pieces keeps every other piece as often as it occurs. */
  lemma SkillsCounted(pieces: seq<string>)
    ensures forall s :: multiset(Seqs.Filter(pieces, NonEmpty))[s] == (if s != "" then multiset(pieces)[s] else 0)
  {
    forall s ensures multiset(Seqs.Filter(pieces, NonEmpty))[s] == (if s != "" then multiset(pieces)[s] else 0) {
      Seqs.FilterMultiplicity(pieces, NonEmpty, s);
    }
  }

  /** The text box starts as the stored skills joined with ", " (Profile.tsx:11, 77). */
  function SkillsText(skills: seq<string>): string {
    Text.Join(skills, ", ")
  }

  /** Skills that are non-empty, trimmed and free of commas survive the round trip through the text box. */
  lemma SkillsRoundTrip(skills: seq<string>)
    requires forall k :: 0 <= k < |skills| ==> skills[k] != "" && Text.IsTrimmed(skills[k]) && ',' !in skills[k]
    ensures SkillsArray("mentor", SkillsText(skills)) == Some(skills)
  {
    if skills == [] {
      assert Seqs.Map(Text.Split("", ','), Text.Trim) == [""];
    } else {
      var spaced := Spaced(skills);
      JoinSpaced(skills);
      Text.SplitJoin(spaced, ',');
      var trimmed := Seqs.Map(spaced, Text.Trim);
      forall k | 0 <= k < |skills| ensures trimmed[k] == skills[k] {
        if k == 0 {
          Text.TrimTrimmed(skills[0]);
        } else {
          Text.TrimAfterSpace(skills[k]);
        }
      }
      assert trimmed == skills;
      Seqs.FilterKeepsAll(skills, NonEmpty);
    }
  }

  /** The pieces `split(',')` finds in a ", "-join: every skill after the first keeps its leading space. */
  function Spaced(skills: seq<string>): seq<string> {
    seq(|skills|, k requires 0 <= k < |skills| => if k == 0 then skills[0] else " " + skills[k])
  }

  lemma {:induction false} JoinSpaced(skills: seq<string>)
    requires |skills| >= 1
    requires forall k :: 0 <= k < |skills| ==> ',' !in skills[k]
    ensures Text.Join(skills, ", ") == Text.Join(Spaced(skills), [','])
    ensures forall k :: 0 <= k < |skills| ==> ',' !in Spaced(skills)[k]
  {
    if |skills| > 1 {
      var tail := skills[1..];
      JoinSpaced(tail);
      var sp := Spaced(skills);
      var spTail := Spaced(tail);
      assert sp[1..] == [" " + tail[0]] + spTail[1..];
      JoinSpaceFirst(tail[0], spTail[1..]);
      assert spTail == [tail[0]] + spTail[1..];
    }
  }

  lemma JoinSpaceFirst(first: string, rest: seq<string>)
    ensures Text.Join([" " + first] + rest, [',']) == " " + Text.Join([first] + rest, [','])
  {
    if rest != [] {
      assert ([" " + first] + rest)[1..] == rest;
      assert ([first] + rest)[1..] == rest;
    }
  }
}
