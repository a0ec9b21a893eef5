/** The records the career-match pipeline passes around: the parsed CV, a
    job posting (one row of the job table) and a ranked row. */
module Records {

  /** What `parse_cv` returns: an identifier, the display name taken from the
      uploaded file's name, the extracted skills in extraction order and the
      CV text. */
  datatype CvRecord = CvRecord(id: string, name: string, skills: seq<string>, rawText: string)

  /** One row of the job table. */
  datatype Job = Job(jobId: string, title: string, company: string, location: string, keywords: string)

  /** One row of the table `match_jobs` returns: the job row as it was, the
      row label it had in the input table (a sort keeps each row's label)
      and the `score` column added to the copy. */
  datatype RankedJob = RankedJob(index: nat, job: Job, score: real)

  function JobIds(jobs: seq<Job>): (ids: seq<string>)
    ensures |ids| == |jobs|
    ensures forall i :: 0 <= i < |jobs| ==> ids[i] == jobs[i].jobId
  {
    if jobs == [] then [] else [jobs[0].jobId] + JobIds(jobs[1..])
  }

  /** No two rows share a `job_id`. */
  predicate UniqueJobIds(jobs: seq<Job>) {
    forall i, j :: 0 <= i < j < |jobs| ==> jobs[i].jobId != jobs[j].jobId
  }
}
