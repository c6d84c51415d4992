/** The keyword tables at the top of src/codexu.py. Lookups of a key that is
    not in a table yield the empty tuple, as `dict.get(key, ())` does. */
module Tables {

  /** OS_KEYWORDS: substrings that mark an asset name as built for an OS. */
  function OsKeywords(osKey: string): seq<string> {
    if osKey == "windows" then ["windows", "msvc", "win"]
    else if osKey == "darwin" then ["darwin", "mac", "osx"]
    else if osKey == "linux" then ["linux"]
    else []
  }

  /** ARCH_KEYWORDS: substrings that mark an asset name as built for a CPU. */
  function ArchKeywords(archKey: string): seq<string> {
    if archKey == "x86_64" then ["x86_64", "amd64"]
    else if archKey == "arm64" then ["arm64", "aarch64"]
    else []
  }

  /** NON_CLI_KEYWORDS: substrings of artifacts that are not the CLI itself. */
  const NonCliKeywords: seq<string> := ["responses", "proxy", "sdk", "npm"]

  /** TAR_SUFFIX_PATTERNS, in the order they are tried. */
  const TarSuffixPatterns: seq<seq<string>> := [
    [".tar", ".gz"],
    [".tar", ".xz"],
    [".tar", ".bz2"],
    [".tar", ".zst"],
    [".tar"],
    [".tgz"],
    [".tbz2"],
    [".txz"]
  ]
}
