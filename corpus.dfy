/** The upload loop of `matcher`: each upload is saved and read inside one
    `try`; it joins the corpus only when nothing raised and its text is not
    blank after `strip()`. The loop keeps two parallel lists, the texts
    (`resumes`) and the uploaded names (`valid_files`). */
module Corpus {
  import opened PyText
  import opened Extraction

  /** One uploaded file: its name, whether saving it succeeded, and what
      each reader would give for its bytes. */
  datatype Upload = Upload(filename: string, saved: bool, readers: Readers)

  /** The body of the `try`: save, then `extract_text` on the saved path. */
  function Attempt(u: Upload): Extracted {
    if u.saved then ExtractText(UploadFolder + u.filename, u.readers) else Failed
  }

  /** The upload enters the corpus: no exception and `text.strip()` non-empty. */
  predicate Kept(u: Upload) {
    Attempt(u).Ok? && Strip(Attempt(u).text) != []
  }

  /** What one upload adds to the corpus: its name and text, or nothing. */
  function Contribution(u: Upload): seq<(string, string)> {
    if Kept(u) then [(u.filename, Attempt(u).text)] else []
  }

  /** The (name, text) pairs the loop collects from `uploads`, in upload
      order; defined on the last upload so that it follows the loop. */
  function Collected(uploads: seq<Upload>): seq<(string, string)> {
    if uploads == [] then []
    else Collected(uploads[..|uploads| - 1]) + Contribution(uploads[|uploads| - 1])
  }

  /** The positions in `uploads` of the kept uploads, in increasing order. */
  function KeptPositions(uploads: seq<Upload>): seq<nat> {
    if uploads == [] then []
    else
      KeptPositions(uploads[..|uploads| - 1])
        + (if Kept(uploads[|uploads| - 1]) then [|uploads| - 1] else [])
  }

  lemma CollectedSnoc(uploads: seq<Upload>, u: Upload)
    ensures Collected(uploads + [u]) == Collected(uploads) + Contribution(u)
  {
    assert (uploads + [u])[..|uploads|] == uploads;
  }

  /** The upload loop (main.py lines 90-101): afterwards the two lists are
      aligned, and entry i of each is the name and the text of the i-th kept
      upload. */
  method CollectResumes(uploads: seq<Upload>) returns (resumes: seq<string>, validFiles: seq<string>)
    ensures |resumes| == |validFiles| == |Collected(uploads)|
    ensures forall i :: 0 <= i < |resumes| ==> (validFiles[i], resumes[i]) == Collected(uploads)[i]
  {
    resumes, validFiles := [], [];
    ghost var collected: seq<(string, string)> := [];
    var n := 0;
    while n < |uploads|
      invariant n <= |uploads|
      invariant collected == Collected(uploads[..n])
      invariant |resumes| == |validFiles| == |collected|
      invariant forall i :: 0 <= i < |resumes| ==> (validFiles[i], resumes[i]) == collected[i]
    {
      var upload := uploads[n];
      CollectedSnoc(uploads[..n], upload);
      assert uploads[..n + 1] == uploads[..n] + [upload];
      collected := collected + Contribution(upload);
      match Attempt(upload) {
        case Failed =>
          // the exception is reported and the loop goes on
        case Ok(text) =>
          if Strip(text) != [] {
            resumes := resumes + [text];
            validFiles := validFiles + [upload.filename];
          }
      }
      n := n + 1;
    }
    assert uploads[..n] == uploads;
  }

  /** The kept positions of `uploads ++ [u]`: those of `uploads`, then
      |uploads| if `u` is kept. */
  lemma KeptPositionsSnoc(uploads: seq<Upload>, u: Upload)
    ensures KeptPositions(uploads + [u])
            == KeptPositions(uploads) + (if Kept(u) then [|uploads|] else [])
  {
    assert (uploads + [u])[..|uploads|] == uploads;
  }

  /** The collected pairs form a subsequence of the uploads: the kept
      positions increase, upload k is kept iff k is among them, and entry i
      of the corpus is the name and text of the upload at position i. */
  lemma {:induction false} CollectedIsKeptSubsequence(uploads: seq<Upload>)
    ensures |KeptPositions(uploads)| == |Collected(uploads)|
    ensures forall i, j :: 0 <= i < j < |KeptPositions(uploads)| ==>
              KeptPositions(uploads)[i] < KeptPositions(uploads)[j]
    ensures forall k :: k in KeptPositions(uploads) <==> 0 <= k < |uploads| && Kept(uploads[k])
    ensures forall i :: 0 <= i < |Collected(uploads)| ==>
              KeptPositions(uploads)[i] < |uploads| && Kept(uploads[KeptPositions(uploads)[i]]) &&
              Collected(uploads)[i] == (uploads[KeptPositions(uploads)[i]].filename,
                                        Attempt(uploads[KeptPositions(uploads)[i]]).text)
  {
    if uploads != [] {
      var n := |uploads| - 1;
      var init, last := uploads[..n], uploads[n];
      assert uploads == init + [last];
      CollectedIsKeptSubsequence(init);
      CollectedSnoc(init, last);
      KeptPositionsSnoc(init, last);
      var ps, c := KeptPositions(init), Collected(init);
      var ps', c' := KeptPositions(uploads), Collected(uploads);
      assert ps' == ps + (if Kept(last) then [n] else []);
      assert c' == c + Contribution(last);
      forall i, j | 0 <= i < j < |ps'| ensures ps'[i] < ps'[j] {
        if j == |ps| {
          assert ps[i] in ps;
        }
      }
      forall k ensures k in ps' <==> 0 <= k < |uploads| && Kept(uploads[k]) {
        if 0 <= k < n {
          assert init[k] == uploads[k];
        }
        if n in ps {
          assert false;
        }
      }
      forall i | 0 <= i < |c'|
        ensures ps'[i] < |uploads| && Kept(uploads[ps'[i]])
        ensures c'[i] == (uploads[ps'[i]].filename, Attempt(uploads[ps'[i]]).text)
      {
        if i < |c| {
          assert init[ps[i]] == uploads[ps[i]];
        }
      }
    }
  }

  /** Every text in the corpus is a successful read that is not blank. */
  lemma CollectedTextsAreNotBlank(uploads: seq<Upload>, i: nat)
    requires i < |Collected(uploads)|
    ensures !Blank(Collected(uploads)[i].1)
  {
    CollectedIsKeptSubsequence(uploads);
    StripEmptyIffBlank(Collected(uploads)[i].1);
  }

  /** A file with an unrecognised suffix (".PDF" included) never enters the
      corpus: it reads as "", which strips to "". */
  lemma UnknownSuffixNeverKept(u: Upload)
    requires FormatOf(u.filename) == Unknown
    ensures !Kept(u)
  {
    FolderKeepsFormat(u.filename);
    if u.saved {
      assert Attempt(u) == Ok("");
      assert Strip("") == [];
    }
  }

  /** A failing upload in the middle changes nothing: the loop goes on and
      collects the later uploads as if it had not been there. */
  lemma {:induction false} FailureIsSkipped(before: seq<Upload>, bad: Upload, after: seq<Upload>)
    requires Attempt(bad).Failed?
    ensures Collected(before + [bad] + after) == Collected(before + after)
  {
    if after == [] {
      CollectedSnoc(before, bad);
      assert before + [bad] + [] == before + [bad];
      assert before + [] == before;
    } else {
      var init, last := after[..|after| - 1], after[|after| - 1];
      assert after == init + [last];
      FailureIsSkipped(before, bad, init);
      assert before + [bad] + after == (before + [bad] + init) + [last];
      assert before + after == (before + init) + [last];
      CollectedSnoc(before + [bad] + init, last);
      CollectedSnoc(before + init, last);
    }
  }
}
