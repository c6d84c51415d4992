/** Finding the Codex executable in what extraction produced:
    `is_codex_binary_name` (src/codexu.py:437-442), `locate_codex_binary`
    (src/codexu.py:272-290) and the caller's choice between them
    (src/codexu.py:210-222). The `rglob` walk is an input: the entries of
    an extracted directory, in the order the walk yields them. */
module Locator {
  import opened Wrappers
  import opened Strings
  import opened Seqs
  import Tables
  import opened Archive

  /** The name with one trailing `.exe` removed (`lower[:-4]`). */
  function ExeStem(lower: string): (r: string)
    ensures EndsWith(lower, ".exe") ==> r + ".exe" == lower
    ensures !EndsWith(lower, ".exe") ==> r == lower
  {
    if EndsWith(lower, ".exe") then lower[..|lower| - 4] else lower
  }

  /** `is_codex_binary_name`: after lower-casing and dropping one `.exe`,
      the name is `codex` or starts with `codex-`, and names none of the
      non-CLI artifacts. */
  predicate IsCodexBinaryName(name: string) {
    var stem := ExeStem(Lower(name));
    && !ContainsAny(stem, Tables.NonCliKeywords)
    && (stem == "codex" || "codex-" <= stem)
  }

  /** The test is blind to letter case. */
  lemma CodexNameIgnoresCase(name: string)
    ensures IsCodexBinaryName(Lower(name)) == IsCodexBinaryName(name)
  {
    LowerIdempotent(name);
  }

  /** Appending `.exe` to a name that does not already end in it changes
      nothing: the Windows and POSIX spellings of a binary agree. */
  lemma CodexNameIgnoresExe(name: string)
    requires !EndsWith(Lower(name), ".exe")
    ensures IsCodexBinaryName(name + ".exe") == IsCodexBinaryName(name)
  {
    LowerAppend(name, ".exe");
    LowerOfLower(".exe");
    assert ExeStem(Lower(name) + ".exe") == Lower(name);
  }

  /** Every accepted name starts with `codex`, whatever its case. */
  lemma CodexNameStartsWithCodex(name: string)
    requires IsCodexBinaryName(name)
    ensures "codex" <= Lower(name)
  {
    var stem := ExeStem(Lower(name));
    assert "codex" <= stem;
    if EndsWith(Lower(name), ".exe") {
      assert stem + ".exe" == Lower(name);
    }
  }

  /** A stem with none of the letters `s`, `y`, `k` and `m` names none of
      the non-CLI artifacts: each of them ends in one of those letters. */
  lemma NoKeywordWithoutTheirLastLetters(stem: string)
    requires forall j :: 0 <= j < |stem| ==>
               stem[j] != 's' && stem[j] != 'y' && stem[j] != 'k' && stem[j] != 'm'
    ensures !ContainsAny(stem, Tables.NonCliKeywords)
  {
    forall i | 0 <= i < |Tables.NonCliKeywords|
      ensures !Contains(stem, Tables.NonCliKeywords[i])
    {
      var kw := Tables.NonCliKeywords[i];
      MissingCharNotContained(stem, kw, |kw| - 1);
    }
  }

  /** `codex` and `codex.exe` are accepted in any mix of letter case. */
  lemma PlainNamesAccepted(name: string)
    requires Lower(name) == "codex" || Lower(name) == "codex.exe"
    ensures IsCodexBinaryName(name)
  {
    var stem := ExeStem(Lower(name));
    assert stem == "codex";
    PlainStemIsClean(stem);
  }

  lemma PlainStemIsClean(stem: string)
    requires stem == "codex"
    ensures !ContainsAny(stem, Tables.NonCliKeywords)
  {
    NoKeywordWithoutTheirLastLetters(stem);
  }

  /** A target-triple suffix after `codex-` is accepted, in any case. */
  lemma TripleNameAccepted(name: string)
    requires Lower(name) == "codex-x86_64"
    ensures IsCodexBinaryName(name)
  {
    var stem := ExeStem(Lower(name));
    assert stem == "codex-x86_64";
    TripleStemIsClean(stem);
  }

  lemma TripleStemIsClean(stem: string)
    requires stem == "codex-x86_64"
    ensures !ContainsAny(stem, Tables.NonCliKeywords)
  {
    NoKeywordWithoutTheirLastLetters(stem);
  }

  /** The SDK shipped beside the CLI is rejected, in any case. */
  lemma SdkNameRejected(name: string)
    requires Lower(name) == "codex-sdk"
    ensures !IsCodexBinaryName(name)
  {
    var stem := ExeStem(Lower(name));
    assert stem == "codex-sdk";
    assert "sdk" <= stem[6..];
    assert Tables.NonCliKeywords[2] == "sdk";
  }

  /** Only one `.exe` is dropped: `codex.exe.exe` is rejected. */
  lemma DoubleExeRejected(name: string)
    requires Lower(name) == "codex.exe.exe"
    ensures !IsCodexBinaryName(name)
  {
    var stem := ExeStem(Lower(name));
    assert stem == "codex.exe";
    assert stem[5] != "codex-"[5];
  }

  /** A walk entry the locator keeps. */
  predicate IsCandidate(e: FileEntry) {
    e.isFile && IsCodexBinaryName(e.name)
  }

  /** `Path(name).suffix.lower() == ".exe"`: the last dot-suffix, which a
      name that is nothing but `.exe` does not have. */
  predicate HasExeSuffix(name: string) {
    |name| > 4 && EndsWith(Lower(name), ".exe")
  }

  function CandidateMatcher(): FileEntry -> bool {
    (e: FileEntry) => IsCandidate(e)
  }

  function ExeMatcher(): FileEntry -> bool {
    (e: FileEntry) => HasExeSuffix(e.name)
  }

  function ExeCandidateMatcher(): FileEntry -> bool {
    (e: FileEntry) => IsCandidate(e) && HasExeSuffix(e.name)
  }

  /** The `candidates` list, in walk order. */
  function Candidates(entries: seq<FileEntry>): (r: seq<FileEntry>)
    ensures forall e :: e in r <==> e in entries && IsCandidate(e)
  {
    Filter(CandidateMatcher(), entries)
  }

  /** `locate_codex_binary`. A single file is returned when its name
      qualifies; walking a file yields nothing, so otherwise the answer is
      `None`. In a directory the first `.exe` candidate wins on Windows and
      the first candidate wins otherwise. */
  function LocateCodexBinary(root: ExtractionRoot, onWindows: bool): (r: Option<FileEntry>)
    ensures r.Some? ==> IsCandidate(r.value)
    ensures root.SingleFile? ==> r == (if IsCandidate(root.file) then Some(root.file) else None)
    ensures root.Directory? ==> (r.None? <==> forall e :: e in root.entries ==> !IsCandidate(e))
    ensures root.Directory? && r.Some? ==> r.value in root.entries
  {
    match root
    case SingleFile(f) => if IsCandidate(f) then Some(f) else None
    case Directory(entries) =>
      var cands := Candidates(entries);
      if cands == [] then None
      else
        var k := FirstIndex(ExeMatcher(), cands);
        if onWindows && k < |cands| then Some(cands[k]) else Some(cands[0])
  }

  /** When no candidate carries the `.exe` suffix, the Windows search
      through the candidates comes back empty-handed. */
  lemma NoExeCandidate(entries: seq<FileEntry>)
    requires forall e :: e in entries && IsCandidate(e) ==> !HasExeSuffix(e.name)
    ensures FirstIndex(ExeMatcher(), Candidates(entries)) == |Candidates(entries)|
  {
    var cands := Candidates(entries);
    assert forall j :: 0 <= j < |cands| ==> !ExeMatcher()(cands[j]) by {
      forall j | 0 <= j < |cands|
        ensures !ExeMatcher()(cands[j])
      {
        assert cands[j] in cands;
      }
    }
  }

  /** Off Windows, or when no candidate is an `.exe`, the locator returns
      the first qualifying file of the walk. */
  lemma LocatePicksFirstCandidate(entries: seq<FileEntry>, onWindows: bool) returns (i: nat)
    requires exists e :: e in entries && IsCandidate(e)
    requires onWindows ==> forall e :: e in entries && IsCandidate(e) ==> !HasExeSuffix(e.name)
    ensures i < |entries| && IsCandidate(entries[i])
    ensures forall j :: 0 <= j < i ==> !IsCandidate(entries[j])
    ensures LocateCodexBinary(Directory(entries), onWindows) == Some(entries[i])
  {
    var cands := Candidates(entries);
    var e :| e in entries && IsCandidate(e);
    assert e in cands;
    FilterHead(CandidateMatcher(), entries);
    i := FirstIndex(CandidateMatcher(), entries);
    if onWindows {
      NoExeCandidate(entries);
    }
  }

  /** On Windows an `.exe` candidate, when there is one, beats every other
      candidate: the result is the first file of the walk that qualifies
      and carries the `.exe` suffix. */
  lemma LocateWindowsPrefersExe(entries: seq<FileEntry>) returns (i: nat)
    requires exists e :: e in entries && IsCandidate(e) && HasExeSuffix(e.name)
    ensures i < |entries| && IsCandidate(entries[i]) && HasExeSuffix(entries[i].name)
    ensures forall j :: 0 <= j < i ==> !(IsCandidate(entries[j]) && HasExeSuffix(entries[j].name))
    ensures LocateCodexBinary(Directory(entries), true) == Some(entries[i])
  {
    var cands := Candidates(entries);
    var e :| e in entries && IsCandidate(e) && HasExeSuffix(e.name);
    assert e in cands;
    FirstIndexOfFilter(ExeMatcher(), CandidateMatcher(), ExeCandidateMatcher(), entries);
    i := FirstIndex(ExeCandidateMatcher(), entries);
  }

  /** The caller's dispatch (src/codexu.py:212-217): a directory is
      searched, a single file is taken when its name qualifies. */
  function BinaryCandidate(root: ExtractionRoot, onWindows: bool): (r: Option<FileEntry>)
  {
    match root
    case Directory(_) => LocateCodexBinary(root, onWindows)
    case SingleFile(f) => if IsCodexBinaryName(f.name) then Some(f) else None
  }

  /** For the files extraction hands on the dispatch agrees with the
      locator itself: a single file's own check is the locator's first
      branch. */
  lemma DispatchAgreesWithLocator(root: ExtractionRoot, onWindows: bool)
    requires root.SingleFile? ==> root.file.isFile
    ensures BinaryCandidate(root, onWindows) == LocateCodexBinary(root, onWindows)
  {
  }

  /** Why no binary came out of a downloaded artifact. */
  datatype ResolveError =
    | ExtractionFailed(cause: ExtractError)
    | BinaryNotFound

  /** What the caller does with the outcome of extraction
      (src/codexu.py:210-222): an extraction error is wrapped, a root is
      dispatched, and finding nothing is an error of its own. */
  function Dispatch(extracted: Result<ExtractionRoot, ExtractError>, onWindows: bool)
    : (r: Result<FileEntry, ResolveError>)
    ensures r.Success? ==> IsCodexBinaryName(r.value.name)
  {
    match extracted
    case Failure(cause) => Failure(ExtractionFailed(cause))
    case Success(root) =>
      match BinaryCandidate(root, onWindows)
      case None => Failure(BinaryNotFound)
      case Some(f) => Success(f)
  }

  /** From the downloaded file to the binary to install: extract, then
      dispatch. Whatever comes out carries a qualifying name. */
  function ResolveBinary(archive: FileEntry, suffixes: seq<string>, decoded: Decoded, onWindows: bool)
    : (r: Result<FileEntry, ResolveError>)
    ensures r.Success? ==> IsCodexBinaryName(r.value.name)
  {
    Dispatch(ExtractArchive(archive, suffixes, decoded), onWindows)
  }

  /** Extraction errors surface exactly when extraction failed, and keep
      the decoder's own error. */
  lemma DispatchExtractionFailure(extracted: Result<ExtractionRoot, ExtractError>, onWindows: bool)
    ensures var r := Dispatch(extracted, onWindows);
            && (r.Failure? && r.error.ExtractionFailed? <==> extracted.Failure?)
            && (extracted.Failure? ==> r == Failure(ExtractionFailed(extracted.error)))
  {
  }

  /** A download used as it is is the binary exactly when its own name
      qualifies. */
  lemma DispatchRawDownload(file: FileEntry, onWindows: bool)
    ensures Dispatch(Success(SingleFile(file)), onWindows)
            == if IsCodexBinaryName(file.name) then Success(file) else Failure(BinaryNotFound)
  {
  }

  /** An unpacked archive yields a binary exactly when one of its regular
      files qualifies, and the binary is one of them. */
  lemma DispatchUnpackedArchive(entries: seq<FileEntry>, onWindows: bool)
    ensures var r := Dispatch(Success(Directory(entries)), onWindows);
            && (r.Success? <==> exists e :: e in entries && IsCandidate(e))
            && (r.Success? ==> r.value in entries && r.value.isFile)
  {
    assert BinaryCandidate(Directory(entries), onWindows) == LocateCodexBinary(Directory(entries), onWindows);
  }
}
