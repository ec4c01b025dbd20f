# Resume matcher: the ranking and feedback core

The Flask application in `main.py` takes a job description and a set of
uploaded resumes (PDF, DOCX or TXT). It extracts each resume's text and
scores it against the job description with TF-IDF and cosine similarity.
It then ranks the resumes by score and gives each one a feedback message
and class, plus a coloured scatter plot.

This project models the decision and ordering logic of that handler in
Dafny and proves its properties. The parts are:

- `pytext.dfy`, module `PyText`: Python's `str.strip()`, which decides
  whether an extracted text counts as empty.
- `extraction.dfy`, module `Extraction`: `extract_text`. It picks a reader
  with an ordered, case-sensitive suffix test (".pdf", ".docx", ".txt").
  Any other name reads as "" and no reader is called. What each reader
  would return for a file (its text, or an exception) is part of the
  modelled upload (`Readers`).
- `corpus.dfy`, module `Corpus`: the upload loop of `matcher`. Saving and
  reading a file both happen inside one `try`. A file joins the corpus only
  when nothing raised and its stripped text is non-empty. The loop keeps
  two aligned lists, `resumes` and `valid_files`.
- `ranking.dfy`, module `Ranking`: `zip` (which stops at the shorter
  input) and `sorted(..., key=score, reverse=True)`. The sort is modelled
  as a stable descending insertion sort. It is proved to be a permutation,
  descending, and stable for every score. It is also proved to be the only
  order with all three properties.
- `feedback.dfy`, module `Feedback`: `generate_feedback` and the colour
  loop of `create_plot`. Both use the thresholds 0.5 and 0.3, and each
  band includes its lower bound.
- `matcher.dfy`, module `Matcher`: the handler itself. It has two guards
  that return error pages, then the upload loop, the scoring (a
  parameter), the ranking, the results loop and the plot colours.

Feedback is computed from the raw score. The plot colours come from the
rounded score shown in the results. So a result's colour and its feedback
class can disagree. `ColourMatchesFeedbackIff` says exactly when they
agree, and `RoundingCanSplitColourFromFeedback` gives a score where they
do not.

Behaviour of the handler worth noting:

- Extraction errors are not caught inside `extract_text`. They are caught
  by the `try` in the upload loop, and that `try` also covers saving the
  file.
- The job-description guard only rejects the empty string. A description
  made only of white space passes.
- No bound on the scores is claimed; the code never clamps them.
- A failing upload is only printed to the server log. The page shows no
  warning for it.

## Model

| member | source | states |
|---|---|---|
| PyText.TrimStartIsLongestSpaceFreeSuffix | main.py:97 | the leading strip keeps a suffix of the text that does not start with white space, and everything it drops is white space |
| PyText.TrimEndIsLongestSpaceFreePrefix | main.py:97 | the trailing strip keeps a prefix that does not end with white space, and everything it drops is white space |
| PyText.StripIsInnerSlice | main.py:97 | `strip()` returns a contiguous slice of the text, surrounded only by white space, that neither starts nor ends with white space |
| PyText.StripEmptyIffBlank | main.py:97 | `text.strip()` is empty exactly when every character of the text is white space, the empty text included |
| Extraction.FormatOf | main.py:31-39 | the format is unknown exactly when the path ends in none of ".pdf", ".docx", ".txt" |
| Extraction.SuffixSelectsReader | main.py:32-37 | a name ending in ".pdf", ".docx" or ".txt" gets that format and that reader's outcome; an earlier test never captures it |
| Extraction.UpperCaseSuffixReadsEmpty | main.py:31-39 | the test is case-sensitive: ".PDF", ".DOCX" and ".TXT" are unknown and read as "" |
| Extraction.FolderKeepsSuffix | main.py:94-96 | for a suffix without '/', the saved path "uploads/" + name ends with it exactly when the name does |
| Extraction.FolderKeepsFormat | main.py:94-96 | the format chosen for the saved path is the format of the uploaded name |
| Extraction.UnknownReadsNothing | main.py:38-39 | an unrecognised path reads as "" whatever the readers would return, so no reader is consulted |
| Corpus.CollectResumes | main.py:90-101 | after the loop the two lists have equal length, and entry i of each is the name and text of the i-th kept upload |
| Corpus.CollectedIsKeptSubsequence | main.py:90-101 | the corpus is the subsequence of uploads at strictly increasing positions; upload k is in it iff its save and read did not raise and its text is not blank |
| Corpus.CollectedTextsAreNotBlank | main.py:97-99 | every text in the corpus has a character that is not white space |
| Corpus.UnknownSuffixNeverKept | main.py:31-39 | a file with an unrecognised suffix (".PDF" included) never enters the corpus |
| Corpus.FailureIsSkipped | main.py:93-101 | an upload whose save or read raises is skipped, and later uploads are collected as if it had not been there |
| Ranking.Zip | main.py:110 | `zip` pairs the i-th name with the i-th score and stops at the shorter input |
| Ranking.SortIsPermutation | main.py:110 | the ranking holds exactly the zipped (name, score) pairs, with multiplicity |
| Ranking.SortIsDescending | main.py:110 | scores never increase along the ranking |
| Ranking.SortIsStable | main.py:110 | for every score, the pairs with that score keep their upload order |
| Ranking.RankingIsUnique | main.py:110 | any descending order that keeps the input order among equal scores is the ranking, so the ranking is what a stable sort with `reverse=True` returns |
| Feedback.GenerateFeedback | main.py:69-75 | "success" iff score >= 0.5, "warning" iff 0.3 <= score < 0.5, "danger" iff score < 0.3, each with its fixed message |
| Feedback.FeedbackBoundaries | main.py:70-72 | exactly 0.5 gives "success" and exactly 0.3 gives "warning" |
| Feedback.FeedbackIsMonotone | main.py:69-75 | a higher score never gets a worse class (danger < warning < success) |
| Feedback.PlotColours | main.py:43-50 | one colour per score, in input order: green iff >= 0.5, orange iff in [0.3, 0.5), red iff < 0.3, and always the colour of the class `generate_feedback` gives that value |
| Matcher.BuildResults | main.py:112-120 | one entry per ranked pair, in ranked order, with the pair's name, its rounded score, and the feedback and class for its unrounded score |
| Matcher.Matcher | main.py:82-124 | no files or an empty job description gives the "upload" error; an empty corpus gives the "could not extract" error; otherwise the results report the ranking and the plot colours follow the shown scores |
| Matcher.RankedReport | main.py:106-110 | with one score per resume, the ranking has one pair per valid upload, is a permutation of the zipped pairs, is descending, and keeps upload order among equal scores |
| Matcher.ColourMatchesFeedbackIff | main.py:112-122 | a result's marker colour matches its feedback class exactly when rounding leaves the score in the same band |
| Matcher.RoundingCanSplitColourFromFeedback | main.py:114-122 | a raw score of 0.496, shown as 0.5, gets "warning" feedback but a green marker |

## Left out

- Flask routing, form parsing, template rendering and the check that the
  method is POST are web I/O. The route only accepts POST, so the check
  always passes.
- Writing the upload to disk and creating the upload folder are
  file-system I/O. Whether the save raised is one flag per upload.
- The bodies of the three readers (PyPDF2 page by page, docx2txt, a UTF-8
  read) are foreign calls. The text or exception each would produce is
  part of the upload's data.
- `os.path.join` is modelled as "uploads/" + name. When the uploaded name
  is an absolute path, Python drops the folder instead; the model does not
  cover that case.
- TF-IDF vectorisation and cosine similarity are scikit-learn internals
  and floating-point code. They are the `similarity` parameter. The model
  does not capture the exception scikit-learn raises when the texts have
  no word tokens (an empty vocabulary), which the handler does not catch.
- `round(score, 2)` is floating-point rounding. It is the `round2`
  parameter, about which nothing is assumed.
- Scores are exact reals, so NaN and float comparison quirks are not
  modelled.
- Matplotlib drawing, the threshold line, PNG encoding and base64 are
  plotting libraries. Only the colour chosen for each marker is modelled.
- Printing the exception for a failed upload is logging output.
- Matcher.RankedReport: it states the ranking's length only when the
  scorer returns one score per resume. That is what cosine similarity
  returns, but the scorer is a parameter here.
