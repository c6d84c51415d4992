/** The format decision of `extract_archive` (src/codexu.py:245-269): the
    lower-cased suffix list of the downloaded file alone says whether it is
    unpacked as a zip archive, as a tar archive, or used as it is. The
    decoders themselves are foreign; their result is an input here. */
module Archive {
  import opened Wrappers
  import opened Strings
  import opened Seqs
  import Tables

  datatype ArchiveKind = Zip | Tar | Raw

  /** A path produced by unpacking: its full path, its final component, and
      whether it is a regular file (`rglob` also yields directories). */
  datatype FileEntry = FileEntry(path: string, name: string, isFile: bool)

  /** What extraction hands on: the fresh directory holding the unpacked
      tree (listed in `rglob` order), or the downloaded file itself. */
  datatype ExtractionRoot =
    | Directory(entries: seq<FileEntry>)
    | SingleFile(file: FileEntry)

  /** What the foreign decoder did with the archive: it unpacked these
      entries; it raised one of the exceptions `extract_archive` converts
      (`BadZipFile` or `OSError` for zip, `TarError` or `OSError` for tar);
      or it raised anything else (`RuntimeError`, `EOFError`, `zlib.error`,
      ...), which nothing there catches. */
  datatype Decoded =
    | Unpacked(entries: seq<FileEntry>)
    | RaisedHandled
    | RaisedOther

  /** How extraction fails: the two converted decoder failures, which are
      `CodexUError`s, and an exception that escapes unconverted, which is
      not one and so is not caught by `main` (src/codexu.py:477, 487). */
  datatype ExtractError = ZipExtractFailed | TarExtractFailed | DecoderEscaped

  /** Whether `main` reports the failure as a `CodexUError`. */
  predicate IsCodexUError(e: ExtractError) {
    !e.DecoderEscaped?
  }

  /** Python's `xs[-n:]`: the last `n` items, all of them when the list is
      shorter, and (since `-0 == 0`) all of them when `n` is zero. */
  function LastN<T>(xs: seq<T>, n: nat): (r: seq<T>)
    ensures |r| == (if 0 < n <= |xs| then n else |xs|)
    ensures r == xs[|xs| - |r|..]
  {
    if n == 0 || n > |xs| then xs else xs[|xs| - n..]
  }

  /** `[s.lower() for s in suffixes]`. */
  function LowerAll(suffixes: seq<string>): (r: seq<string>)
    ensures |r| == |suffixes|
  {
    seq(|suffixes|, i requires 0 <= i < |suffixes| => Lower(suffixes[i]))
  }

  /** Every lowered suffix is already in lower case, so lowering the list
      again changes nothing. */
  lemma LowerAllIdempotent(suffixes: seq<string>)
    ensures LowerAll(LowerAll(suffixes)) == LowerAll(suffixes)
  {
    var r := LowerAll(suffixes);
    forall i | 0 <= i < |r|
      ensures LowerAll(r)[i] == r[i]
    {
      LowerIdempotent(suffixes[i]);
    }
  }

  /** The test `suffixes[-len(pattern):] == list(pattern)` as a predicate on
      patterns, for a fixed suffix list. */
  function TailIs(suffixes: seq<string>): seq<string> -> bool {
    pattern => LastN(suffixes, |pattern|) == pattern
  }

  /** Index of the first tar pattern that the suffix list ends with, or 8
      when none does. */
  function TarPatternIndex(suffixes: seq<string>): (i: nat)
    ensures i <= |Tables.TarSuffixPatterns|
  {
    FirstIndex(TailIs(suffixes), Tables.TarSuffixPatterns)
  }

  /** The decision on an already lower-cased suffix list. */
  function ClassifyLowered(lowered: seq<string>): (k: ArchiveKind)
  {
    if LastN(lowered, 1) == [".zip"] then Zip
    else if TarPatternIndex(lowered) < |Tables.TarSuffixPatterns| then Tar
    else Raw
  }

  /** The decision `extract_archive` takes for a file with the given
      (`Path.suffixes`) list: the suffixes are compared lower-cased. */
  function Classify(suffixes: seq<string>): (k: ArchiveKind)
  {
    ClassifyLowered(LowerAll(suffixes))
  }

  /** The tar patterns read as a statement about the last two suffixes. */
  predicate KnownTarTail(l: seq<string>) {
    || (|l| >= 1 && l[|l| - 1] in {".tar", ".tgz", ".tbz2", ".txz"})
    || (|l| >= 2 && l[|l| - 2] == ".tar" && l[|l| - 1] in {".gz", ".xz", ".bz2", ".zst"})
  }

  /** A pattern of one or two suffixes matches exactly when it spells the
      last one or two suffixes. */
  lemma TailMatches(l: seq<string>, p: seq<string>)
    requires |l| >= 1
    requires |p| == 1 || |p| == 2
    ensures LastN(l, |p|) == p <==>
              if |p| == 1 then l[|l| - 1] == p[0]
              else |l| >= 2 && l[|l| - 2] == p[0] && l[|l| - 1] == p[1]
  {
    if |p| == 2 && |l| == 1 {
      assert |LastN(l, 2)| == 1;
    }
  }

  /** `p` spells out the last one or two entries of `l`. */
  predicate TailSpells(l: seq<string>, p: seq<string>) {
    if |p| == 1 then |l| >= 1 && l[|l| - 1] == p[0]
    else |p| == 2 && |l| >= 2 && l[|l| - 2] == p[0] && l[|l| - 1] == p[1]
  }

  /** Spelling one of the eight patterns is the two-suffix reading. */
  lemma SpellsIffKnown(l: seq<string>)
    ensures (exists i :: 0 <= i < |Tables.TarSuffixPatterns| && TailSpells(l, Tables.TarSuffixPatterns[i])) <==> KnownTarTail(l)
  {
    var ps := Tables.TarSuffixPatterns;
    if KnownTarTail(l) {
      var last := l[|l| - 1];
      if last == ".tar" { assert TailSpells(l, ps[4]); }
      else if last == ".tgz" { assert TailSpells(l, ps[5]); }
      else if last == ".tbz2" { assert TailSpells(l, ps[6]); }
      else if last == ".txz" { assert TailSpells(l, ps[7]); }
      else if last == ".gz" { assert TailSpells(l, ps[0]); }
      else if last == ".xz" { assert TailSpells(l, ps[1]); }
      else if last == ".bz2" { assert TailSpells(l, ps[2]); }
      else { assert TailSpells(l, ps[3]); }
    }
  }

  /** The slice comparison of the source, pattern by pattern, is spelling. */
  lemma MatchIffSpells(l: seq<string>)
    ensures forall i :: 0 <= i < |Tables.TarSuffixPatterns| ==>
              (LastN(l, |Tables.TarSuffixPatterns[i]|) == Tables.TarSuffixPatterns[i] <==> TailSpells(l, Tables.TarSuffixPatterns[i]))
  {
    var ps := Tables.TarSuffixPatterns;
    forall i | 0 <= i < |ps|
      ensures LastN(l, |ps[i]|) == ps[i] <==> TailSpells(l, ps[i])
    {
      if |l| == 0 {
        assert LastN(l, |ps[i]|) == [];
      } else {
        TailMatches(l, ps[i]);
      }
    }
  }

  /** The tar search succeeds exactly on the known tar tails. */
  lemma TarIffKnownTail(l: seq<string>)
    ensures TarPatternIndex(l) < |Tables.TarSuffixPatterns| <==> KnownTarTail(l)
  {
    var ps := Tables.TarSuffixPatterns;
    var k := TarPatternIndex(l);
    assert forall j :: 0 <= j < k ==> !TailIs(l)(ps[j]);
    assert k < |ps| ==> TailIs(l)(ps[k]);
    MatchIffSpells(l);
    SpellsIffKnown(l);
    if k < |ps| {
      assert TailSpells(l, ps[k]);
    }
  }

  /** `suffixes[-1:] == [".zip"]` is a test of the last suffix. */
  lemma ZipIffLastZip(l: seq<string>)
    ensures ClassifyLowered(l) == Zip <==> |l| >= 1 && l[|l| - 1] == ".zip"
  {
    if |l| >= 1 {
      assert LastN(l, 1) == [l[|l| - 1]];
    }
  }

  /** `.zip` is none of the tar spellings. */
  lemma ZipNotKnownTar(l: seq<string>)
    requires |l| >= 1 && l[|l| - 1] == ".zip"
    ensures !KnownTarTail(l)
  {
  }

  /** The decision on a lower-cased list, read off its last two entries. */
  lemma ClassifyLoweredByTail(l: seq<string>)
    ensures ClassifyLowered(l) == Zip <==> |l| >= 1 && l[|l| - 1] == ".zip"
    ensures ClassifyLowered(l) == Tar <==> KnownTarTail(l)
    ensures ClassifyLowered(l) == Raw <==> !(|l| >= 1 && l[|l| - 1] == ".zip") && !KnownTarTail(l)
  {
    ZipIffLastZip(l);
    TarIffKnownTail(l);
    if |l| >= 1 && l[|l| - 1] == ".zip" {
      ZipNotKnownTar(l);
    }
  }

  /** Independent reading of the classification: zip exactly when the last
      suffix is `.zip` in any letter case, tar exactly when the lower-cased
      list ends in one of the known tar spellings, and the file is used as it
      is otherwise. */
  lemma ClassifyByTail(suffixes: seq<string>)
    ensures var l := LowerAll(suffixes);
            && (Classify(suffixes) == Zip <==> |l| >= 1 && l[|l| - 1] == ".zip")
            && (Classify(suffixes) == Tar <==> KnownTarTail(l))
            && (Classify(suffixes) == Raw <==> !(|l| >= 1 && l[|l| - 1] == ".zip") && !KnownTarTail(l))
  {
    ClassifyLoweredByTail(LowerAll(suffixes));
  }

  /** `.tar.zst` is a tar archive, in any letter case. */
  lemma TarZstIsTar(suffixes: seq<string>)
    requires LowerAll(suffixes) == [".tar", ".zst"]
    ensures Classify(suffixes) == Tar
  {
    ClassifyLoweredByTail(LowerAll(suffixes));
  }

  /** A bare compression suffix is not an archive format of its own. */
  lemma BareGzIsRaw(suffixes: seq<string>)
    requires LowerAll(suffixes) == [".gz"]
    ensures Classify(suffixes) == Raw
  {
    var l := LowerAll(suffixes);
    assert !KnownTarTail(l);
    ClassifyLoweredByTail(l);
  }

  lemma BareZstIsRaw(suffixes: seq<string>)
    requires LowerAll(suffixes) == [".zst"]
    ensures Classify(suffixes) == Raw
  {
    var l := LowerAll(suffixes);
    assert !KnownTarTail(l);
    ClassifyLoweredByTail(l);
  }

  /** Suffixes are compared after lower-casing: `.ZIP` is a zip archive. */
  lemma UpperCaseZipIsZip(suffixes: seq<string>)
    requires suffixes == [".ZIP"]
    ensures Classify(suffixes) == Zip
  {
    assert Lower(".ZIP") == ".zip";
    ZipIffLastZip(LowerAll(suffixes));
  }

  /** A release name with dots in its version still classifies by its tail
      (`codex-0.46.0-linux.tar.gz` has suffixes `.46`, `.0-linux`, `.tar`,
      `.gz`). */
  lemma VersionedTarballIsTar(suffixes: seq<string>)
    requires LowerAll(suffixes) == [".46", ".0-linux", ".tar", ".gz"]
    ensures Classify(suffixes) == Tar
  {
    ClassifyLoweredByTail(LowerAll(suffixes));
  }

  /** `extract_archive`. The downloaded file is `archive`; `decoded` is
      what the foreign decoder did with it (ignored when nothing is
      unpacked). Only the converted exceptions become `CodexUError`s. */
  function ExtractArchive(archive: FileEntry, suffixes: seq<string>, decoded: Decoded)
    : (r: Result<ExtractionRoot, ExtractError>)
    ensures Classify(suffixes) == Raw ==> r == Success(SingleFile(archive))
    ensures Classify(suffixes) == Zip && decoded.RaisedHandled? ==> r == Failure(ZipExtractFailed)
    ensures Classify(suffixes) == Tar && decoded.RaisedHandled? ==> r == Failure(TarExtractFailed)
    ensures Classify(suffixes) != Raw && decoded.RaisedOther? ==> r == Failure(DecoderEscaped)
    ensures Classify(suffixes) != Raw && decoded.Unpacked? ==> r == Success(Directory(decoded.entries))
  {
    match Classify(suffixes)
    case Raw => Success(SingleFile(archive))
    case Zip => Unpack(decoded, ZipExtractFailed)
    case Tar => Unpack(decoded, TarExtractFailed)
  }

  /** The `try` around one decoder: its entries, the converted error, or
      the escaping exception. */
  function Unpack(decoded: Decoded, converted: ExtractError): Result<ExtractionRoot, ExtractError>
  {
    match decoded
    case Unpacked(entries) => Success(Directory(entries))
    case RaisedHandled => Failure(converted)
    case RaisedOther => Failure(DecoderEscaped)
  }

  /** A decoder that raised makes extraction fail, and `main` reports the
      failure exactly when the exception was one of the converted ones; any
      other raise escapes it. */
  lemma ExtractFailureReportedIffConverted(archive: FileEntry, suffixes: seq<string>, decoded: Decoded)
    requires Classify(suffixes) != Raw && !decoded.Unpacked?
    ensures ExtractArchive(archive, suffixes, decoded).Failure?
    ensures IsCodexUError(ExtractArchive(archive, suffixes, decoded).error) <==> decoded.RaisedHandled?
  {
  }
}
