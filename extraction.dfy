/** `extract_text`: the file format is chosen from the path by an ordered,
    case-sensitive suffix test (".pdf", then ".docx", then ".txt"); any other
    path yields the empty text without calling a reader. The three readers
    themselves (PyPDF2, docx2txt and a UTF-8 file read) are outside the
    model: what each would give for a file is part of that file's data. */
module Extraction {

  datatype Format = Pdf | Docx | Txt | Unknown

  /** What reading a file gave: its text, or an exception. */
  datatype Extracted = Ok(text: string) | Failed

  /** What each of the three readers would give for one file's bytes. */
  datatype Readers = Readers(pdf: Extracted, docx: Extracted, txt: Extracted)

  /** The directory uploads are saved into before they are read. */
  const UploadFolder: string := "uploads/"

  /** Python's `s.endswith(suffix)`. */
  predicate EndsWith(s: string, suffix: string) {
    |suffix| <= |s| && s[|s| - |suffix|..] == suffix
  }

  /** The `if`/`elif` cascade of `extract_text`. */
  function FormatOf(path: string): (f: Format)
    ensures f == Unknown <==>
              !EndsWith(path, ".pdf") && !EndsWith(path, ".docx") && !EndsWith(path, ".txt")
  {
    if EndsWith(path, ".pdf") then Pdf
    else if EndsWith(path, ".docx") then Docx
    else if EndsWith(path, ".txt") then Txt
    else Unknown
  }

  /** `extract_text(path)`: the reader the format selects, or "" for an
      unrecognised suffix. */
  function ExtractText(path: string, readers: Readers): Extracted {
    match FormatOf(path)
    case Pdf => readers.pdf
    case Docx => readers.docx
    case Txt => readers.txt
    case Unknown => Ok("")
  }

  lemma EndsWithAppend(stem: string, suffix: string)
    ensures EndsWith(stem + suffix, suffix)
  {
    assert (stem + suffix)[|stem|..] == suffix;
  }

  /** A name ending in one of the three recognised suffixes is read by the
      matching reader; the earlier tests never capture it. */
  lemma SuffixSelectsReader(stem: string, readers: Readers)
    ensures FormatOf(stem + ".pdf") == Pdf && ExtractText(stem + ".pdf", readers) == readers.pdf
    ensures FormatOf(stem + ".docx") == Docx && ExtractText(stem + ".docx", readers) == readers.docx
    ensures FormatOf(stem + ".txt") == Txt && ExtractText(stem + ".txt", readers) == readers.txt
  {
    EndsWithAppend(stem, ".pdf");
    var d := stem + ".docx";
    EndsWithAppend(stem, ".docx");
    assert d[|d| - 4] == 'd';
    var t := stem + ".txt";
    EndsWithAppend(stem, ".txt");
    assert t[|t| - 4] == '.' && t[|t| - 3] == 't';
  }

  /** The test is case-sensitive: upper-case suffixes are not recognised
      and read as "". */
  lemma UpperCaseSuffixReadsEmpty(stem: string, readers: Readers)
    ensures FormatOf(stem + ".PDF") == Unknown && ExtractText(stem + ".PDF", readers) == Ok("")
    ensures FormatOf(stem + ".DOCX") == Unknown && ExtractText(stem + ".DOCX", readers) == Ok("")
    ensures FormatOf(stem + ".TXT") == Unknown && ExtractText(stem + ".TXT", readers) == Ok("")
  {
    // the last character already differs from every lower-case suffix
    var p := stem + ".PDF";
    assert p[|p| - 1] == 'F';
    var d := stem + ".DOCX";
    assert d[|d| - 1] == 'X';
    var t := stem + ".TXT";
    assert t[|t| - 1] == 'T';
  }

  /** For a suffix without '/', testing the saved path "uploads/" + name is
      the same as testing the uploaded name. */
  lemma FolderKeepsSuffix(name: string, suffix: string)
    requires forall k :: 0 <= k < |suffix| ==> suffix[k] != '/'
    ensures EndsWith(UploadFolder + name, suffix) <==> EndsWith(name, suffix)
  {
    var p := UploadFolder + name;
    if |suffix| <= |name| {
      assert p[|p| - |suffix|..] == name[|name| - |suffix|..];
    } else if |suffix| <= |p| {
      // the folder's closing '/' falls inside the last |suffix| characters
      var k := |suffix| - |name| - 1;
      assert p[|p| - |suffix|..][k] == '/';
    }
  }

  /** The format of the saved path is the format of the uploaded name. */
  lemma FolderKeepsFormat(name: string)
    ensures FormatOf(UploadFolder + name) == FormatOf(name)
  {
    FolderKeepsSuffix(name, ".pdf");
    FolderKeepsSuffix(name, ".docx");
    FolderKeepsSuffix(name, ".txt");
  }

  /** An unrecognised path reads as "" whatever the readers would give, so
      no reader is consulted. */
  lemma UnknownReadsNothing(path: string, a: Readers, b: Readers)
    requires FormatOf(path) == Unknown
    ensures ExtractText(path, a) == ExtractText(path, b) == Ok("")
  {
  }
}
