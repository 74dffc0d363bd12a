/** Resumes and their version history (resumes/serializers.py,
    resumes/views.py).  The history is the list of a resume's versions in
    the order they were created; a well-kept history has version numbers
    that start at 1 or above and strictly increase, so they are unique per
    resume as the database requires. */
module ResumeVersions {
  import opened Collections
  import opened ResumeContent
  import opened Users

  /** One saved version: its key, its number and the content it holds. */
  datatype Version = Version(id: nat, number: nat, content: Json)

  /** A resume with its version history. */
  datatype Resume = Resume(
    id: nat, user: nat, template: Option<nat>, title: string, content: Json, isActive: bool,
    versions: seq<Version>)

  /** Numbers at least 1 and strictly increasing in creation order. */
  predicate WellNumbered(vs: seq<Version>)
  {
    (forall i :: 0 <= i < |vs| ==> vs[i].number >= 1)
    && (forall i, j :: 0 <= i < j < |vs| ==> vs[i].number < vs[j].number)
  }

  /** The highest version number, 0 for an empty history (the number of
      the latest version when ordered by number, descending). */
  function MaxNumber(vs: seq<Version>): (m: nat)
    ensures forall i :: 0 <= i < |vs| ==> vs[i].number <= m
    ensures |vs| == 0 ==> m == 0
    ensures |vs| > 0 ==> exists i :: 0 <= i < |vs| && vs[i].number == m
    decreases |vs|
  {
    if |vs| == 0 then 0
    else
      var rest := MaxNumber(vs[1..]);
      assert forall i :: 1 <= i < |vs| ==> vs[i] == vs[1..][i - 1];
      if vs[0].number >= rest then vs[0].number else rest
  }

  /** The next number: one more than the latest, or 1 for an empty
      history. */
  function NextNumber(vs: seq<Version>): (n: nat)
    ensures n >= 1
    ensures forall i :: 0 <= i < |vs| ==> vs[i].number < n
  {
    if |vs| == 0 then 1 else MaxNumber(vs) + 1
  }

  /** Appending a version with the next number keeps the history well
      numbered. */
  lemma AppendKeepsNumbering(vs: seq<Version>, id: nat, content: Json)
    requires WellNumbered(vs)
    ensures WellNumbered(vs + [Version(id, NextNumber(vs), content)])
  {
  }

  /** The fields a create request may carry; absent ones take the model
      defaults (no template, empty content, active). */
  datatype ResumeInput = ResumeInput(template: Option<nat>, title: string, content: Option<Json>, isActive: Option<bool>)

  /** `ResumeCreateSerializer.create`: the resume, owned by the requester,
      with a single version numbered 1 holding the resume's content (an
      empty dict when none is given).  `resumeId` and `versionId` are the
      keys the database assigns. */
  function CreateResume(owner: nat, input: ResumeInput, resumeId: nat, versionId: nat): (r: Resume)
    ensures r.id == resumeId && r.user == owner && r.title == input.title && r.template == input.template
    ensures r.isActive == (if input.isActive.Some? then input.isActive.value else true)
    ensures r.content == (if input.content.Some? then input.content.value else Map([]))
    ensures r.versions == [Version(versionId, 1, r.content)]
    ensures WellNumbered(r.versions)
  {
    var content := if input.content.Some? then input.content.value else Map([]);
    Resume(resumeId, owner, input.template, input.title, content,
           if input.isActive.Some? then input.isActive.value else true,
           [Version(versionId, 1, content)])
  }

  /** The fields an update request may carry; absent ones are left as they
      are. */
  datatype ResumeChanges = ResumeChanges(
    template: Option<Option<nat>>, title: Option<string>, content: Option<Json>, isActive: Option<bool>)

  /** `ResumeUpdateSerializer.update`: the supplied fields are written, and
      when content is supplied — even content equal to the current one — a
      version holding it is appended with the next number.  Without content
      the history is untouched. */
  function UpdateResume(r: Resume, changes: ResumeChanges, versionId: nat): (u: Resume)
    ensures u.id == r.id && u.user == r.user
    ensures u.template == (if changes.template.Some? then changes.template.value else r.template)
    ensures u.title == (if changes.title.Some? then changes.title.value else r.title)
    ensures u.isActive == (if changes.isActive.Some? then changes.isActive.value else r.isActive)
    ensures changes.content.None? ==> u.content == r.content && u.versions == r.versions
    ensures changes.content.Some? ==>
              && u.content == changes.content.value
              && u.versions == r.versions + [Version(versionId, NextNumber(r.versions), changes.content.value)]
    ensures WellNumbered(r.versions) ==> WellNumbered(u.versions)
  {
    var r1 := r.(template := if changes.template.Some? then changes.template.value else r.template,
                 title := if changes.title.Some? then changes.title.value else r.title,
                 isActive := if changes.isActive.Some? then changes.isActive.value else r.isActive);
    if changes.content.Some? then
      var c := changes.content.value;
      assert WellNumbered(r.versions) ==> WellNumbered(r.versions + [Version(versionId, NextNumber(r.versions), c)]) by {
        if WellNumbered(r.versions) { AppendKeepsNumbering(r.versions, versionId, c); }
      }
      r1.(content := c, versions := r.versions + [Version(versionId, NextNumber(r.versions), c)])
    else r1
  }

  /** Why a restore is refused: no version id given (HTTP 400) or no
      version of this resume with that id (HTTP 404). */
  datatype RestoreError = VersionIdRequired | VersionNotFound

  /** The position of the version with key `id` in the history, if any. */
  function FindVersion(vs: seq<Version>, id: nat): (r: Option<nat>)
    ensures r.Some? ==> r.value < |vs| && vs[r.value].id == id
    ensures r.None? <==> forall i :: 0 <= i < |vs| ==> vs[i].id != id
    decreases |vs|
  {
    if |vs| == 0 then None
    else if vs[0].id == id then Some(0)
    else
      var r := FindVersion(vs[1..], id);
      assert forall i :: 1 <= i < |vs| ==> vs[i] == vs[1..][i - 1];
      if r.Some? then Some(r.value + 1) else None
  }

  /** `restore_version`.  `versionId` is the query parameter, `None` when it
      is missing or empty.  A found version's content becomes the resume's
      content and is appended again as a new version with the next number;
      `newId` is the key the database gives that version. */
  function RestoreVersion(r: Resume, versionId: Option<nat>, newId: nat): (res: Result<Resume, RestoreError>)
    ensures versionId.None? ==> res == Err(VersionIdRequired)
    ensures versionId.Some? ==>
              (res == Err(VersionNotFound) <==> forall i :: 0 <= i < |r.versions| ==> r.versions[i].id != versionId.value)
    ensures res.Ok? ==> res.value == r.(content := res.value.content, versions := res.value.versions)
    ensures res.Ok? ==> exists i :: (&& 0 <= i < |r.versions| && r.versions[i].id == versionId.value
                                     && res.value.content == r.versions[i].content)
    ensures res.Ok? ==> res.value.versions == r.versions + [Version(newId, NextNumber(r.versions), res.value.content)]
    ensures res.Ok? && WellNumbered(r.versions) ==> WellNumbered(res.value.versions)
  {
    if versionId.None? then Err(VersionIdRequired)
    else
      match FindVersion(r.versions, versionId.value)
      case None => Err(VersionNotFound)
      case Some(i) =>
        var c := r.versions[i].content;
        assert WellNumbered(r.versions) ==> WellNumbered(r.versions + [Version(newId, NextNumber(r.versions), c)]) by {
          if WellNumbered(r.versions) { AppendKeepsNumbering(r.versions, newId, c); }
        }
        Ok(r.(content := c, versions := r.versions + [Version(newId, MaxNumber(r.versions) + 1, c)]))
  }

  /** The history only grows: every operation keeps the existing versions
      unchanged as a prefix. */
  lemma HistoryAppendOnly(r: Resume, changes: ResumeChanges, versionId: Option<nat>, newId: nat)
    ensures r.versions <= UpdateResume(r, changes, newId).versions
    ensures RestoreVersion(r, versionId, newId).Ok? ==> r.versions <= RestoreVersion(r, versionId, newId).value.versions
  {
  }

  /** Restoring the newest version appends a copy of it, so the two newest
      versions then hold the same content. */
  lemma RestoreLatestDuplicates(r: Resume, newId: nat)
    requires |r.versions| > 0
    requires WellNumbered(r.versions)
    requires forall i :: 0 <= i < |r.versions| - 1 ==> r.versions[i].id != r.versions[|r.versions| - 1].id
    ensures var last := r.versions[|r.versions| - 1];
            var res := RestoreVersion(r, Some(last.id), newId);
            && res.Ok?
            && res.value.content == last.content
            && |res.value.versions| == |r.versions| + 1
            && res.value.versions[|r.versions|].number == last.number + 1
  {
    var last := r.versions[|r.versions| - 1];
    var k := FindVersion(r.versions, last.id).value;
    assert k == |r.versions| - 1;
    assert MaxNumber(r.versions) == last.number by {
      var j :| 0 <= j < |r.versions| && r.versions[j].number == MaxNumber(r.versions);
      if j < |r.versions| - 1 {
        assert r.versions[j].number < last.number;
      }
    }
  }

  /** `ResumeViewSet.get_queryset`: admins see every resume, anyone else
      only their own, in the database order. */
  function VisibleResumes(resumes: seq<Resume>, requester: Account): (r: seq<Resume>)
    ensures IsSubseq(r, resumes)
    ensures requester.role == Admin ==> r == resumes
    ensures requester.role != Admin ==> forall x | x in r :: x in resumes && x.user == requester.id
    ensures requester.role != Admin ==> forall x | x in resumes && x.user == requester.id :: x in r
    ensures requester.role != Admin ==>
              forall x :: multiset(r)[x] == if x.user == requester.id then multiset(resumes)[x] else 0
  {
    if requester.role == Admin then
      SubseqRefl(resumes);
      resumes
    else
      var keep := (x: Resume) => x.user == requester.id;
      FilterSubseq(resumes, keep);
      FilterCounts(resumes, keep);
      Filter(resumes, keep)
  }
}
