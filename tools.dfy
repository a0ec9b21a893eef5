/** The tool layer of the career-match app: the stub CV parser and the job
    search that always falls back to a fixed catalog. */
module ToolLayer {
  import opened Records
  import Text

  type byte = bv8

  /** The skills the stub parser reports for every CV, in this order. */
  const StubSkills: seq<string> :=
    ["Python", "Data Analysis", "SQL", "Machine Learning", "Leadership", "Project Management"]

  const StubRawText: string := "(full CV text here)"

  /** The stub parser. The uploaded bytes are not read at all. The random
      UUID the app draws is the parameter `id`, and its one-second pause
      has no counterpart here. */
  function ParseCv(fileBytes: seq<byte>, filename: string, id: string): (cv: CvRecord)
    ensures cv.name == filename && cv.id == id
    ensures cv.skills == StubSkills && cv.rawText == StubRawText
  {
    CvRecord(id, filename, StubSkills, StubRawText)
  }

  /** The CV does not depend on the file's contents, only on its name. */
  lemma ParseCvIgnoresContents(b1: seq<byte>, b2: seq<byte>, filename: string, id: string)
    ensures ParseCv(b1, filename, id) == ParseCv(b2, filename, id)
    ensures ParseCv(b1, filename, id).skills[..3] == ["Python", "Data Analysis", "SQL"]
  {
  }

  /** The four-row fallback catalog. */
  function StaticJobs(): (jobs: seq<Job>)
    ensures |jobs| == 4
    ensures JobIds(jobs) == ["1", "2", "3", "4"]
    ensures UniqueJobIds(jobs)
  {
    [
      Job("1", "Data Analyst", "Acme Corp", "Baltimore, MD", "Python SQL Excel"),
      Job("2", "Product Manager", "TechNova", "Remote", "Agile Roadmaps Leadership"),
      Job("3", "Machine Learning Engineer", "DeepAI", "Washington, DC", "Machine Learning Python TensorFlow"),
      Job("4", "Business Analyst", "FinServe", "New York, NY", "SQL PowerBI Finance")
    ]
  }

  /** The message of the error the live search raises on every call. */
  const LiveSearchError: string :=
    "Live job search not implemented \U{2013} using fallback list"

  /** What the job search hands back: the job table and the informational
      notice it shows when it falls back. */
  datatype SearchResult = SearchResult(jobs: seq<Job>, notice: string)

  /** The job search. Its live path raises unconditionally; the handler
      catches the error, turns it into a notice and returns the static
      catalog, so no error ever reaches the caller. */
  function ExternalJobSearch(skills: seq<string>): (r: SearchResult)
    ensures r.jobs == StaticJobs()
    ensures Text.EndsWith(r.notice, LiveSearchError)
  {
    var err := LiveSearchError;
    Text.EndsWithExtend("\U{1F504} Job search fallback activated: ", err);
    SearchResult(StaticJobs(), "\U{1F504} Job search fallback activated: " + err)
  }

  /** Whatever skills are searched for, the same catalog comes back. */
  lemma ExternalJobSearchIgnoresSkills(s1: seq<string>, s2: seq<string>)
    ensures ExternalJobSearch(s1) == ExternalJobSearch(s2)
    ensures UniqueJobIds(ExternalJobSearch(s1).jobs)
  {
  }
}
