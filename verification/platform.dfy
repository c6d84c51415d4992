/** Canonical platform keys: `platform.system()` and `platform.machine()`
    mapped to the keys of the keyword tables. `None` models Python's `None`. */
module Platform {
  import opened Wrappers
  import opened Strings
  import Tables

  /** normalize_os: the three known systems by lower-case prefix, anything
      else (and an empty or absent name) to `None`. */
  function NormalizeOs(raw: Option<string>): (r: Option<string>)
    ensures r.Some? ==> r.value in {"windows", "darwin", "linux"}
    ensures r == Some("windows") <==> raw.Some? && "win" <= Lower(raw.value)
    ensures r == Some("darwin") <==> raw.Some? && "darwin" <= Lower(raw.value)
    ensures r == Some("linux") <==> raw.Some? && "linux" <= Lower(raw.value)
  {
    if raw.None? || raw.value == [] then None
    else
      var lower := Lower(raw.value);
      if "win" <= lower then Some("windows")
      else if "darwin" <= lower then Some("darwin")
      else if "linux" <= lower then Some("linux")
      else None
  }

  /** normalize_arch: the two known machine families to their canonical
      key; any other non-empty name passes through lower-cased. */
  function NormalizeArch(raw: Option<string>): (r: Option<string>)
    ensures r.None? <==> raw.None? || raw.value == []
    ensures r == Some("x86_64") <==> raw.Some? && Lower(raw.value) in {"x86_64", "amd64"}
    ensures r == Some("arm64") <==> raw.Some? && Lower(raw.value) in {"arm64", "aarch64"}
    ensures r.Some? && Tables.ArchKeywords(r.value) == [] ==> r.value == Lower(raw.value)
  {
    if raw.None? || raw.value == [] then None
    else
      var lower := Lower(raw.value);
      if lower == "x86_64" || lower == "amd64" then Some("x86_64")
      else if lower == "arm64" || lower == "aarch64" then Some("arm64")
      else Some(lower)
  }

  /** Every OS key the normaliser produces has keywords in OS_KEYWORDS. */
  lemma OsKeysHaveKeywords(raw: Option<string>)
    ensures NormalizeOs(raw).Some? ==> Tables.OsKeywords(NormalizeOs(raw).value) != []
  {
  }
}
