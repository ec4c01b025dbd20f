/** The `/matcher` request handler: the two guards, the upload loop, the
    similarity scores (TF-IDF and cosine similarity, a parameter here), the
    stable descending ranking, the results loop and the plot colours. */
module Matcher {
  import opened Corpus
  import opened Ranking
  import opened Feedback

  /** One row of the results table: the dict built at main.py line 115. */
  datatype ResultEntry = ResultEntry(filename: string, score: real, feedback: string, feedbackClass: FeedbackClass)

  /** What the handler renders: an error message, or the results and the
      colours of the plot markers. */
  datatype Page = ErrorPage(error: string) | ResultsPage(results: seq<ResultEntry>, colours: seq<Colour>)

  const MissingInputError: string := "Please upload resumes and enter a job description."
  const NoTextError: string := "Could not extract text from any resumes. Please try different files."

  function Names(corpus: seq<(string, string)>): seq<string> {
    seq(|corpus|, i requires 0 <= i < |corpus| => corpus[i].0)
  }

  function Texts(corpus: seq<(string, string)>): seq<string> {
    seq(|corpus|, i requires 0 <= i < |corpus| => corpus[i].1)
  }

  /** The similarity of each valid resume to the job description, in corpus
      order. */
  function Similarities(jobDescription: string, uploads: seq<Upload>,
                        similarity: (string, seq<string>) -> seq<real>): seq<real>
  {
    similarity(jobDescription, Texts(Collected(uploads)))
  }

  /** `zip(valid_files, similarities)`: each valid name with its score, in
      upload order. */
  function ScoredFiles(jobDescription: string, uploads: seq<Upload>,
                       similarity: (string, seq<string>) -> seq<real>): seq<Scored>
  {
    Zip(Names(Collected(uploads)), Similarities(jobDescription, uploads, similarity))
  }

  /** `scored_resumes` (main.py line 110): the scored files in descending
      order of score. */
  function Ranked(jobDescription: string, uploads: seq<Upload>,
                  similarity: (string, seq<string>) -> seq<real>): seq<Scored>
  {
    SortDescending(ScoredFiles(jobDescription, uploads, similarity))
  }

  /** `results` lists the ranked pairs in ranked order, each with its rounded
      score and the feedback for its unrounded score. */
  predicate Reports(results: seq<ResultEntry>, ranked: seq<Scored>, round2: real -> real) {
    && |results| == |ranked|
    && forall i :: 0 <= i < |ranked| ==>
         && results[i].filename == ranked[i].0
         && results[i].score == round2(ranked[i].1)
         && (results[i].feedback, results[i].feedbackClass) == GenerateFeedback(ranked[i].1)
  }

  /** The marker colours follow the scores shown in the results, which are
      the rounded ones. */
  predicate ColoursOfShownScores(colours: seq<Colour>, results: seq<ResultEntry>) {
    && |colours| == |results|
    && forall i :: 0 <= i < |results| ==> colours[i] == ColourOf(GenerateFeedback(results[i].score).1)
  }

  /** The results loop (main.py lines 112-120). */
  method BuildResults(ranked: seq<Scored>, round2: real -> real) returns (results: seq<ResultEntry>)
    ensures Reports(results, ranked, round2)
  {
    results := [];
    for i := 0 to |ranked|
      invariant Reports(results, ranked[..i], round2)
    {
      var (filename, score) := ranked[i];
      var (feedback, feedbackClass) := GenerateFeedback(score);
      results := results + [ResultEntry(filename, round2(score), feedback, feedbackClass)];
    }
    assert ranked[..|ranked|] == ranked;
  }

  /** `matcher()` (main.py lines 82-124): an error page when no file or no
      job description was sent, an error page when no upload gave text, and
      otherwise the ranked results with the plot colours. */
  method Matcher(jobDescription: string, uploads: seq<Upload>,
                 similarity: (string, seq<string>) -> seq<real>, round2: real -> real)
    returns (page: Page)
    ensures uploads == [] || jobDescription == "" ==> page == ErrorPage(MissingInputError)
    ensures uploads != [] && jobDescription != "" && Collected(uploads) == [] ==>
              page == ErrorPage(NoTextError)
    ensures uploads != [] && jobDescription != "" && Collected(uploads) != [] ==>
              && page.ResultsPage?
              && Reports(page.results, Ranked(jobDescription, uploads, similarity), round2)
              && ColoursOfShownScores(page.colours, page.results)
  {
    if |uploads| == 0 || |jobDescription| == 0 {
      return ErrorPage(MissingInputError);
    }
    var resumes, validFiles := CollectResumes(uploads);
    if |resumes| == 0 {
      return ErrorPage(NoTextError);
    }
    assert validFiles == Names(Collected(uploads));
    assert resumes == Texts(Collected(uploads));
    var similarities := similarity(jobDescription, resumes);
    var scoredResumes := SortDescending(Zip(validFiles, similarities));
    var results := BuildResults(scoredResumes, round2);
    var shownScores := seq(|results|, i requires 0 <= i < |results| => results[i].score);
    var colours := PlotColours(shownScores);
    page := ResultsPage(results, colours);
  }

  /** When the scorer gives one score per resume, the ranking has exactly
      one pair per valid upload, and the pairs are those uploads' names with
      their scores, reordered by descending score, equal scores in upload
      order. */
  lemma RankedReport(jobDescription: string, uploads: seq<Upload>,
                     similarity: (string, seq<string>) -> seq<real>, v: real)
    requires |Similarities(jobDescription, uploads, similarity)| == |Collected(uploads)|
    ensures |Ranked(jobDescription, uploads, similarity)| == |Collected(uploads)|
    ensures multiset(Ranked(jobDescription, uploads, similarity))
            == multiset(ScoredFiles(jobDescription, uploads, similarity))
    ensures Descending(Ranked(jobDescription, uploads, similarity))
    ensures WithScore(Ranked(jobDescription, uploads, similarity), v)
            == WithScore(ScoredFiles(jobDescription, uploads, similarity), v)
  {
    var pairs := ScoredFiles(jobDescription, uploads, similarity);
    SortIsPermutation(pairs);
    SortIsDescending(pairs);
    SortIsStable(pairs, v);
    assert |multiset(SortDescending(pairs))| == |pairs|;
  }

  /** A result's marker colour matches its feedback class exactly when
      rounding leaves its score in the same band. */
  lemma ColourMatchesFeedbackIff(results: seq<ResultEntry>, ranked: seq<Scored>, round2: real -> real,
                                 colours: seq<Colour>, i: nat)
    requires Reports(results, ranked, round2) && ColoursOfShownScores(colours, results)
    requires i < |results|
    ensures colours[i] == ColourOf(results[i].feedbackClass)
            <==> GenerateFeedback(round2(ranked[i].1)).1 == GenerateFeedback(ranked[i].1).1
  {
  }

  /** Rounding can move a score across a band edge: a score of 0.496 gets
      the "warning" feedback but, shown as 0.5, a green marker. */
  lemma RoundingCanSplitColourFromFeedback(round2: real -> real, results: seq<ResultEntry>, colours: seq<Colour>)
    requires round2(0.496) == 0.5
    requires Reports(results, [("cv.pdf", 0.496)], round2) && ColoursOfShownScores(colours, results)
    ensures results[0].feedbackClass == Warning && colours[0] == Green
  {
  }
}
