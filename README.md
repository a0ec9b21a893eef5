# Career-Match pipeline — a Dafny model

This project models the pure core of the JHU Career-Match prototype
(`career_match_app.py`): the stub CV parser, the job search that always
falls back to a fixed four-row catalog, the top-k selection in
`match_jobs`, and the three document templates (career advice, cover
letter, intro email). Everything there is a pure function of its inputs,
so the model is datatypes, functions and lemmas.

Modules:

- `Records` (`records.dfy`): `CvRecord`, `Job` (one row of the job table) and
  `RankedJob` (a job row plus its original row label and its `score`).
- `ToolLayer` (`tools.dfy`): `ParseCv`, `StaticJobs`, `ExternalJobSearch`.
- `Ranking` (`ranking.dfy`): the score column, a descending sort, `head(top_k)`,
  and `MatchJobs`, which composes them.
- `Documents` (`documents.dfy`): the three templates. Each one is written as the
  list of its f-string pieces joined by `Text.Concat`.
- `Text` (`text.dfy`): Python's `sep.join`, `xs[:n]`, `s.split(sep)` and substring
  tests, with the lemmas the templates need.
- `Pipeline` (`pipeline.dfy`): the chain the upload handler runs, from parsing
  the CV to writing the documents.

Modelling choices:

- Similarity scores are an input. `MatchJobs` takes one `real` per job row,
  in row order. Nothing is assumed about their range.
- The row label that pandas keeps through `sort_values` is the `index` field
  of `RankedJob`. This lets the contracts say which input rows were kept.
- `head(n)` is modelled for every integer `n`, as pandas defines it: a
  negative `n` keeps all rows but the last `-n`.
- The model sorts with a deterministic insertion sort. No contract says how
  rows with equal scores are ordered, because pandas' default sort is not stable.
- In the app, `iloc[0]` on an empty ranking and `skills[2]` on a CV with
  fewer than three skills raise `IndexError`. Here both are the `Failure`
  outcome of a `Result`. The contracts state the exact failure condition in
  both directions.
- The email subject separator is an en dash followed by a no-break space
  (`" \U{2013}\U{00A0}"`), exactly as `generate_email` writes it.
- Python's `str` immutability and the `jobs.copy()` in `match_jobs` both
  appear as value semantics. No function can change its caller's table.

## Model

| member | source | states |
|---|---|---|
| `ToolLayer.ParseCv` | career_match_app.py:34-38 | name is the filename, id is the supplied identifier, skills are the fixed six in order, raw text is the placeholder |
| `ToolLayer.ParseCvIgnoresContents` | career_match_app.py:34-38 | the CV does not depend on the uploaded bytes; its first three skills are Python, Data Analysis, SQL |
| `ToolLayer.StaticJobs` | career_match_app.py:40-47 | the fallback catalog has four rows with job ids "1","2","3","4" in order, all distinct |
| `ToolLayer.ExternalJobSearch` | career_match_app.py:49-54 | for every skill list it returns exactly the static catalog and a notice ending with the live-search error message; no error escapes |
| `ToolLayer.ExternalJobSearchIgnoresSkills` | career_match_app.py:49-54 | the search result is the same for any two skill lists, and its job ids are unique |
| `Ranking.WithScores` | career_match_app.py:64-65 | the copied table keeps every row with its label and job fields, and row i gets the i-th score |
| `Ranking.SortByScore` | career_match_app.py:66 | the sorted table is a permutation (same multiset) of its input, in non-increasing score order |
| `Ranking.SortKeepsLabelsDistinct` | career_match_app.py:66 | sorting never duplicates a row: distinct labels stay distinct |
| `Ranking.MatchJobs` | career_match_app.py:60-66 | result length is min(top_k, rows) for top_k >= 0 (rows + top_k, floored at 0, for negative top_k); scores non-increasing; no row twice; each row is an input row, with its job fields and its own score unchanged |
| `Ranking.HeadCount` | career_match_app.py:66 | the number of rows `head(n)` keeps: never more than the table; for n >= 0 at most n, and n itself unless the table is shorter; for negative n at least all but the last -n rows, and exactly that many unless that would be negative, then none |
| `Ranking.MatchJobsDefault` | career_match_app.py:60 | `match_jobs` without a `top_k` uses the default 3, so it returns three rows, or the whole table when it has fewer |
| `Ranking.MatchJobsKeepsBest` | career_match_app.py:66 | every input row left out scores no higher than any row kept, so the result is a top-k selection |
| `Ranking.MatchJobsWholeTable` | career_match_app.py:66 | when top_k is at least the number of rows, the result is the whole scored table, reordered, and every row label appears |
| `Ranking.MatchJobsUniqueIds` | career_match_app.py:64-66 | if the input's job ids are unique, no job id appears twice in the result |
| `Text.Take` | career_match_app.py:69 | `xs[:n]` (also used at lines 75 and 83) has min(n, len) items, each equal to the item at the same position of `xs` |
| `Text.Join` | career_match_app.py:69 | `sep.join(xs)` (also used at lines 75 and 83) is empty for no items, and otherwise starts with the first item and ends with the last |
| `Text.JoinContainsEach` | career_match_app.py:69 | every item of a `sep.join` appears verbatim in the joined text |
| `Documents.SkillListMentions` | career_match_app.py:69 | each of the first n skills appears verbatim in `", ".join(skills[:n])` |
| `Text.Split` | career_match_app.py:81 | `s.split(sep)` has at least one piece; it has exactly one, equal to `s`, iff `s` has no separator; its first piece is a prefix of `s` |
| `Text.Stem` | career_match_app.py:81 | `s.split('.')[0]` is a prefix of `s`, and is all of `s` when `s` has no '.' |
| `Text.SplitPiecesLackSep` | career_match_app.py:81 | no piece of `s.split(sep)` contains the separator |
| `Text.JoinSplit` | career_match_app.py:81 | joining the pieces of `s.split(sep)` with the separator gives back `s` |
| `Text.StemIsPrefixBeforeSep` | career_match_app.py:81 | `s.split('.')[0]` is a prefix of `s` without '.', ending at the end of `s` or just before its first '.' |
| `Text.StemWholeIffNoSep` | career_match_app.py:81 | `s.split('.')[0]` is all of `s` exactly when `s` has no '.' |
| `Documents.GenerateCareerAdvice` | career_match_app.py:68-71 | fails exactly on an empty ranking; otherwise starts with the lead-in and the first three skills joined by ", ", and ends with the top row's title and "." |
| `Documents.CareerAdviceMentions` | career_match_app.py:68-71 | on a non-empty ranking the advice contains the top title and each of the first min(3, skills) skills verbatim |
| `Documents.GenerateCoverLetter` | career_match_app.py:73-78 | starts with "Dear Hiring Manager,\n\n" and the joined first three skills, contains "<title> role at <company>", ends with the closing line and "Sincerely,\nStudent Name" |
| `Documents.CoverLetterMentions` | career_match_app.py:73-78 | the letter contains the title, the company and each of the first min(3, skills) skills verbatim |
| `Documents.GenerateEmail` | career_match_app.py:80-88 | fails exactly when the CV has fewer than three skills; otherwise starts with the subject line (title, dash, name up to the first '.') and a blank line, contains "<title> at <company>", and ends with "Best regards,\nStudent Name" |
| `Documents.EmailMentions` | career_match_app.py:80-88 | with three skills the email contains the title, the company and skills 0-2 verbatim; the subject's name part is a prefix of the name with no '.', and equals the whole name iff it has no '.' |
| `Pipeline.TopMatches` | career_match_app.py:96-105 | on an upload the recommendations are three distinct catalog rows, each with its own job and score, in non-increasing score order, and no catalog row left out scores higher than a row shown |
| `Pipeline.UploadFlowNeverFails` | career_match_app.py:96-120 | on the upload path the advice and every email succeed, each letter and email names its company, and the three recommended jobs have distinct ids |

## Left out

- The user interface (page configuration, uploader, buttons, headers and
  dataframe display, lines 21 and 91-127) is presentation only. `Pipeline`
  models only the data flow between the calls it makes.
- The memory file (`MEMORY_FILE`, `_load_memory`, `_save_memory`, lines
  23-31) is file I/O through the JSON library, so it is not modelled.
- `embed_text_batch` and the cosine-similarity expression (lines 56-58 and 63)
  are a seeded random generator and floating-point arithmetic. The scores
  they produce are the `scores` parameter. No claim is made about their
  range or about invariance under scaling.
- `ToolLayer.ParseCv`: the random `uuid.uuid4()` identifier is the `id`
  parameter, so the model cannot state that identifiers are fresh. The
  one-second `time.sleep` has no counterpart.
- `ToolLayer.ExternalJobSearch`: the notice is returned as a string rather
  than shown through `st.info`.
- `Ranking.SortByScore`: the model's sort happens to be stable, but no
  contract relies on that. pandas' default sort is not stable, so the order of
  equally scored rows is left unspecified.
- `Documents.GenerateEmail`: "first line" is stated as a prefix of the text
  (the subject followed by a blank line). It is only the literal first line
  when the title and name contain no line break.
- The glucose dashboard (`smart_diabetes_app.py`) is styling plus a
  read-CSV / sort / chart chain through pandas and the charting library. It
  is not part of this model.
