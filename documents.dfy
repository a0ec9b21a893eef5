/** The three document templates: career advice, cover letter and intro
    email. Each is one f-string, written here as the list of its literal
    and interpolated pieces glued by `Concat`. Where the app indexes
    past the end of a list it raises `IndexError`; here that is the
    `Failure` outcome. */
module Documents {
  import opened Records
  import opened Text

  datatype DocError = IndexError(message: string)

  datatype Result<T> = Ok(value: T) | Failure(error: DocError)

  /** `", ".join(skills[:n])`. */
  function SkillList(skills: seq<string>, n: nat): string {
    Join(Take(skills, n), ", ")
  }

  /** Each of the first `n` skills appears verbatim in `SkillList`. */
  lemma SkillListMentions(skills: seq<string>, n: nat, k: nat)
    requires k < n && k < |skills|
    ensures Contains(SkillList(skills, n), skills[k])
  {
    JoinContainsEach(Take(skills, n), ", ", k);
  }

  const AdviceLead: string := "Based on your strengths in "
  const AdviceMiddle: string :=
    ", consider bolstering hands\U{2011}on SQL projects and joining JHU's Data Science Club to prepare for roles like "

  function AdviceParts(cv: CvRecord, title: string): seq<string> {
    [AdviceLead, SkillList(cv.skills, 3), AdviceMiddle, title, "."]
  }

  /** `generate_career_advice`: names the CV's first three skills and the
      title of the top-ranked row. An empty ranking has no first row. */
  function GenerateCareerAdvice(cv: CvRecord, topJobs: seq<RankedJob>): (r: Result<string>)
    ensures r.Failure? <==> |topJobs| == 0
    ensures r.Ok? ==> StartsWith(r.value, AdviceLead + SkillList(cv.skills, 3))
    ensures r.Ok? ==> EndsWith(r.value, topJobs[0].job.title + ".")
  {
    if |topJobs| == 0 then Failure(IndexError("single positional indexer is out-of-bounds"))
    else
      var parts := AdviceParts(cv, topJobs[0].job.title);
      ConcatStartsWith(parts, 2);
      ConcatEndsWith(parts, 3);
      assert parts[..2] == [AdviceLead, SkillList(cv.skills, 3)];
      ConcatTwo(AdviceLead, SkillList(cv.skills, 3));
      assert parts[3..] == [topJobs[0].job.title, "."];
      ConcatTwo(topJobs[0].job.title, ".");
      Ok(Concat(parts))
  }

  /** The advice quotes the top title and each of the first three skills
      verbatim. */
  lemma CareerAdviceMentions(cv: CvRecord, topJobs: seq<RankedJob>, k: nat)
    requires |topJobs| > 0 && k < |cv.skills| && k < 3
    ensures GenerateCareerAdvice(cv, topJobs).Ok?
    ensures Contains(GenerateCareerAdvice(cv, topJobs).value, topJobs[0].job.title)
    ensures Contains(GenerateCareerAdvice(cv, topJobs).value, cv.skills[k])
  {
    var parts := AdviceParts(cv, topJobs[0].job.title);
    ConcatContainsPart(parts, 3);
    ConcatContainsPart(parts, 1);
    SkillListMentions(cv.skills, 3, k);
    ContainsTrans(Concat(parts), SkillList(cv.skills, 3), cv.skills[k]);
  }

  const LetterGreeting: string := "Dear Hiring Manager,\n\n"
  const LetterLead: string := "My background in "
  const LetterFit: string := " and recent projects at JHU make me an excellent fit for the "
  const LetterRoleAt: string := " role at "
  const LetterClose: string :=
    ". I am excited about the opportunity to contribute and grow with your team.\n\n"
  const LetterSignOff: string := "Sincerely,\nStudent Name"

  function LetterParts(cv: CvRecord, row: RankedJob): seq<string> {
    [LetterGreeting, LetterLead, SkillList(cv.skills, 3), LetterFit,
     row.job.title, LetterRoleAt, row.job.company, LetterClose, LetterSignOff]
  }

  /** `generate_cover_letter`: never fails, since slicing `skills[:3]` is
      safe for any number of skills. */
  function GenerateCoverLetter(cv: CvRecord, row: RankedJob): (r: string)
    ensures StartsWith(r, LetterGreeting + LetterLead + SkillList(cv.skills, 3))
    ensures Contains(r, row.job.title + LetterRoleAt + row.job.company)
    ensures EndsWith(r, LetterClose + LetterSignOff)
  {
    var parts := LetterParts(cv, row);
    ConcatStartsWith(parts, 3);
    assert parts[..3] == [LetterGreeting, LetterLead, SkillList(cv.skills, 3)];
    ConcatThree(LetterGreeting, LetterLead, SkillList(cv.skills, 3));
    ConcatContainsRun(parts, 4, 7);
    assert parts[4..7] == [row.job.title, LetterRoleAt, row.job.company];
    ConcatThree(row.job.title, LetterRoleAt, row.job.company);
    ConcatEndsWith(parts, 7);
    assert parts[7..] == [LetterClose, LetterSignOff];
    ConcatTwo(LetterClose, LetterSignOff);
    Concat(parts)
  }

  /** The letter quotes the job's title and company and each of the first
      three skills verbatim. */
  lemma CoverLetterMentions(cv: CvRecord, row: RankedJob, k: nat)
    requires k < |cv.skills| && k < 3
    ensures Contains(GenerateCoverLetter(cv, row), row.job.title)
    ensures Contains(GenerateCoverLetter(cv, row), row.job.company)
    ensures Contains(GenerateCoverLetter(cv, row), cv.skills[k])
  {
    var parts := LetterParts(cv, row);
    ConcatContainsPart(parts, 4);
    ConcatContainsPart(parts, 6);
    ConcatContainsPart(parts, 2);
    SkillListMentions(cv.skills, 3, k);
    ContainsTrans(Concat(parts), SkillList(cv.skills, 3), cv.skills[k]);
  }

  const SubjectLead: string := "Subject: Application for "
  /** An en dash followed by a no-break space, as the app writes it. */
  const SubjectDash: string := " \U{2013}\U{00A0}"
  const EmailGreeting: string := "\n\nHi there,\n\n"
  const EmailFoundation: string := "I\U{2019}m a JHU student with a strong foundation in "
  const EmailExperience: string := " and hands\U{2011}on experience in "
  const EmailOpening: string := ". After reviewing the opening for a "
  const EmailAt: string := " at "
  const EmailClose: string :=
    ", I believe my background aligns well with your needs. I\U{2019}ve attached my r\U{00E9}sum\U{00E9} for your convenience and would welcome the chance to discuss how I can contribute to your team.\n\nThanks for your time and consideration!\n\n"
  const EmailSignOff: string := "Best regards,\nStudent Name"

  /** The email's subject line: the job title and the CV name up to its
      first `.` (`name.split('.')[0]`). */
  function SubjectLine(cv: CvRecord, row: RankedJob): string {
    SubjectLead + row.job.title + SubjectDash + Stem(cv.name, '.')
  }

  function EmailParts(cv: CvRecord, row: RankedJob): seq<string>
    requires |cv.skills| >= 3
  {
    [SubjectLead, row.job.title, SubjectDash, Stem(cv.name, '.'), EmailGreeting,
     EmailFoundation, SkillList(cv.skills, 2), EmailExperience, cv.skills[2],
     EmailOpening, row.job.title, EmailAt, row.job.company, EmailClose, EmailSignOff]
  }

  /** `generate_email`: fails exactly when the CV has fewer than three
      skills, because the third skill is indexed directly. */
  function GenerateEmail(cv: CvRecord, row: RankedJob): (r: Result<string>)
    ensures r.Failure? <==> |cv.skills| < 3
    ensures r.Ok? ==> StartsWith(r.value, SubjectLine(cv, row) + EmailGreeting)
    ensures r.Ok? ==> Contains(r.value, row.job.title + EmailAt + row.job.company)
    ensures r.Ok? ==> EndsWith(r.value, EmailSignOff)
  {
    if |cv.skills| < 3 then Failure(IndexError("list index out of range"))
    else
      var parts := EmailParts(cv, row);
      ConcatStartsWith(parts, 5);
      ConcatSplit(parts[..5], 4);
      assert parts[..5][..4] == [SubjectLead, row.job.title, SubjectDash, Stem(cv.name, '.')];
      ConcatFour(SubjectLead, row.job.title, SubjectDash, Stem(cv.name, '.'));
      assert parts[..5][4..] == [EmailGreeting];
      ConcatOne(EmailGreeting);
      ConcatContainsRun(parts, 10, 13);
      assert parts[10..13] == [row.job.title, EmailAt, row.job.company];
      ConcatThree(row.job.title, EmailAt, row.job.company);
      ConcatEndsWith(parts, 14);
      assert parts[14..] == [EmailSignOff];
      ConcatOne(EmailSignOff);
      Ok(Concat(parts))
  }

  /** The email quotes the title, the company and the first three skills
      verbatim, and the name in its subject stops at the first `.`: it is a
      prefix of the CV name with no `.` in it, and it is the whole name
      exactly when the name has no `.`. */
  lemma EmailMentions(cv: CvRecord, row: RankedJob, k: nat)
    requires 3 <= |cv.skills| && k < 3
    ensures GenerateEmail(cv, row).Ok?
    ensures Contains(GenerateEmail(cv, row).value, row.job.title)
    ensures Contains(GenerateEmail(cv, row).value, row.job.company)
    ensures Contains(GenerateEmail(cv, row).value, cv.skills[k])
    ensures StartsWith(cv.name, Stem(cv.name, '.')) && '.' !in Stem(cv.name, '.')
    ensures Stem(cv.name, '.') == cv.name <==> '.' !in cv.name
  {
    var parts := EmailParts(cv, row);
    ConcatContainsPart(parts, 1);
    ConcatContainsPart(parts, 12);
    if k < 2 {
      ConcatContainsPart(parts, 6);
      SkillListMentions(cv.skills, 2, k);
      ContainsTrans(Concat(parts), SkillList(cv.skills, 2), cv.skills[k]);
    } else {
      ConcatContainsPart(parts, 8);
    }
    StemIsPrefixBeforeSep(cv.name, '.');
    StemWholeIffNoSep(cv.name, '.');
  }
}
