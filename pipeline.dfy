/** The chain the app runs on an upload: parse the CV, search for jobs,
    rank them with the default `top_k`, then write the advice and, for each
    recommended job, the cover letter and the email. */
module Pipeline {
  import opened Records
  import opened ToolLayer
  import opened Ranking
  import opened Documents

  /** The recommendations shown for an upload, given the similarity score
      of each catalog row: the three best-scoring catalog rows, best first. */
  function TopMatches(fileBytes: seq<byte>, filename: string, id: string, scores: seq<real>): (top: seq<RankedJob>)
    requires |scores| == |StaticJobs()|
    ensures |top| == 3
    ensures NonIncreasing(top)
    ensures DistinctLabels(top)
    ensures forall i :: 0 <= i < |top| ==>
              top[i].index < 4 && top[i].job == StaticJobs()[top[i].index] && top[i].score == scores[top[i].index]
    ensures forall i, j :: (0 <= i < |top| && 0 <= j < 4 && j !in Labels(top)) ==> scores[j] <= top[i].score
  {
    var cv := ParseCv(fileBytes, filename, id);
    var jobs := ExternalJobSearch(cv.skills).jobs;
    MatchJobsKeepsBest(jobs, scores, DefaultTopK);
    MatchJobsDefault(jobs, scores)
  }

  /** On the app's own path no document template can fail: the ranking has
      three rows, so the advice has a top job, and the stub CV has six
      skills, so every email has a third skill. The three recommended jobs
      are distinct catalog jobs and each is named in its letter and email. */
  lemma {:induction false} UploadFlowNeverFails(fileBytes: seq<byte>, filename: string, id: string, scores: seq<real>)
    requires |scores| == |StaticJobs()|
    ensures GenerateCareerAdvice(ParseCv(fileBytes, filename, id), TopMatches(fileBytes, filename, id, scores)).Ok?
    ensures forall row | row in TopMatches(fileBytes, filename, id, scores) ::
              GenerateEmail(ParseCv(fileBytes, filename, id), row).Ok? &&
              Text.Contains(GenerateEmail(ParseCv(fileBytes, filename, id), row).value, row.job.company) &&
              Text.Contains(GenerateCoverLetter(ParseCv(fileBytes, filename, id), row), row.job.company)
    ensures forall i, j :: 0 <= i < j < 3 ==>
              TopMatches(fileBytes, filename, id, scores)[i].job.jobId != TopMatches(fileBytes, filename, id, scores)[j].job.jobId
  {
    var cv := ParseCv(fileBytes, filename, id);
    var jobs := ExternalJobSearch(cv.skills).jobs;
    MatchJobsUniqueIds(jobs, scores, DefaultTopK);
    forall row | row in TopMatches(fileBytes, filename, id, scores)
      ensures GenerateEmail(cv, row).Ok?
      ensures Text.Contains(GenerateEmail(cv, row).value, row.job.company)
      ensures Text.Contains(GenerateCoverLetter(cv, row), row.job.company)
    {
      EmailMentions(cv, row, 0);
      CoverLetterMentions(cv, row, 0);
    }
  }
}
