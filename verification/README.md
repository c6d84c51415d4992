# codexu core, modelled in Dafny

`codexu` keeps the Codex command-line tool up to date. It reads the installed
version and the latest release tag, and compares the two version tokens.
When they differ, it picks the release asset built for the running platform
and unpacks it if it is an archive. It then finds the `codex` executable
inside and swaps it in beside the old binary, keeping one backup.

This project models the decision logic of that path in `src/codexu.py` as
pure Dafny functions, and proves what each step promises.

| module | models |
|---|---|
| `Version` | `normalize_version` as a hand-written scanner, and the version-equality gate in `main` |
| `Platform` | `normalize_os` and `normalize_arch` |
| `Selection` | `select_asset_for_current_platform` and its filters, the six-group cascade and the packaging score |
| `Archive` | the format decision of `extract_archive`; the decoders are inputs |
| `Locator` | `is_codex_binary_name`, `locate_codex_binary`, and the caller's directory-or-file dispatch |
| `Installer` | `stage_and_replace_binary` and `make_executable`, run over a map from path to file |
| `Tables` | the keyword and suffix tables at the top of the file |
| `Strings`, `Seqs`, `Wrappers` | ASCII string helpers, list helpers (`Filter`, `FirstIndex`, first arg-max), `Option` and `Result` |

Conventions:
- Python's `None` is `Option.None`.
- A raised exception is a `Result.Failure` or an `Outcome.Raised` carrying which call failed.
- Every file-system call of the install protocol may fail; a `Faults` record says which ones do on a run.
- `platform.system()`, `platform.machine()`, `os.name`, the `rglob` walk, `Path.suffixes` and the decoders' results are parameters.

On these points the model follows the code as written, where its docstrings or a first reading suggest otherwise:
- The falsiness test in `normalize_version` runs before `strip()`. Whitespace-only input therefore gives the empty token `""`, not `None`.
- With no digit in the text, one leading `v` is still dropped: `version` gives `ersion`.
- The staging file is `.<name>.new`, with a leading dot.
- The old `.bak` is deleted even when there is no live binary.
- Only a failed final rename is wrapped as `CodexUError`. A failure of the copy, the chmod, the unlink, the move to backup, or the move back surfaces as a raw `OSError`.
- `darwin` contains `win`, so darwin-named assets match the `windows` key.

## Model

| member | source | states |
|---|---|---|
| `Version.NormalizeVersion` | src/codexu.py:67-75 | `None` exactly for an absent or empty input; otherwise a token no longer than the input |
| `Version.NormalizeVersionNone` | src/codexu.py:69-70 | absent and empty inputs give `None` |
| `Version.NormalizeVersionDigitCase` | src/codexu.py:72-75 | when the text has a digit, the token is the maximal run of `[-\w.]` characters starting at the first digit, whatever whitespace or `v` surrounds it |
| `Version.NormalizeVersionFallback` | src/codexu.py:72-75 | without a digit, the token is the stripped text less one leading `v`/`V` |
| `Version.WhitespaceOnlyGivesEmptyToken` | src/codexu.py:69-75 | non-empty whitespace-only input gives `Some("")`, not `None` |
| `Version.SearchFailsWithoutDigit` | src/codexu.py:73-74 | the regular-expression search fails exactly on digit-free text |
| `Version.SearchFindsTokenRun` | src/codexu.py:73-75 | on stripped text, the search followed by dropping a leading `v` yields exactly the token run |
| `Version.TokenRunInSlice` | src/codexu.py:72-73 | stripping whitespace from both ends keeps the token run intact |
| `Version.TokenOfWithoutDigit` | src/codexu.py:74-75 | a failed search keeps the whole text, less one leading `v` |
| `Version.TokenRunExists` | src/codexu.py:73 | any text with a digit has a token run, found at its first digit |
| `Version.TokenRunUnique` | src/codexu.py:73 | the scanner's first digit and token prefix are exactly the token run |
| `Version.NonDigitPrefixKeepsToken` | src/codexu.py:73 | a non-digit character in front of a versioned text does not change its token |
| `Version.LeadingVIrrelevant` | src/codexu.py:73-75 | `v` + text and `V` + text give the same token as text, when text has a digit |
| `Version.PlainVersionToken` | src/codexu.py:67-75 | `1.2.3` gives `1.2.3` |
| `Version.TagVersionToken` | src/codexu.py:67-75 | `v1.2.3` gives `1.2.3` |
| `Version.GarbageKeptWhole` | src/codexu.py:74-75 | digit-free `garbage` is kept whole |
| `Version.VersionWordLosesV` | src/codexu.py:74-75 | digit-free `version` gives `ersion` |
| `Version.NormalizeVersionBlank` | src/codexu.py:69-75 | three spaces give the empty token |
| `Version.UpdateGate` | src/codexu.py:474-486 | a failed lookup reports failure; with both tokens present, equal tokens start Codex and unequal tokens run the update |
| `Version.GateComparesTokensOnly` | src/codexu.py:481 | a `v`-prefixed tag naming the installed version starts Codex; an older latest release still triggers an update |
| `Platform.NormalizeOs` | src/codexu.py:445-457 | `windows`, `darwin` or `linux` exactly when the lower-cased name starts with `win`, `darwin` or `linux` respectively; nothing else is produced |
| `Platform.NormalizeArch` | src/codexu.py:460-470 | `None` only for absent or empty input; `x86_64` exactly for x86_64/amd64 and `arm64` exactly for arm64/aarch64, in any case; any other name passes through lower-cased |
| `Platform.OsKeysHaveKeywords` | src/codexu.py:445-457 | every produced OS key has keywords in the OS table |
| `Selection.FilterCliAssets` | src/codexu.py:376-385 | keeps exactly the assets with a non-empty name free of the non-CLI keywords |
| `Selection.FilterByOsAndArch` | src/codexu.py:388-395 | keeps exactly the assets matching both keys |
| `Selection.FilterByOs` | src/codexu.py:398-399 | keeps exactly the assets matching the OS key |
| `Selection.PreferredOrder` | src/codexu.py:417-423 | every OS key, listed or not, gets a four-entry preference list |
| `Selection.ScoreFrom` | src/codexu.py:425-430 | the score is 0 exactly when no listed suffix matches; otherwise it names the first matching suffix |
| `Selection.PackagingScore` | src/codexu.py:425-430 | every score lies in 0..4 |
| `Selection.ChooseBestPackaging` | src/codexu.py:416-433 | the choice is in the group, has the highest score there, and no earlier asset scores as high |
| `Selection.CandidateGroups` | src/codexu.py:360-368 | six groups, each a sub-list of the assets, the last being all of them |
| `Selection.Cascade` | src/codexu.py:370-373 | `None` exactly when every group is empty; otherwise a member of some group |
| `Selection.SelectForKeys` | src/codexu.py:355-373 | `None` exactly when the asset list is empty; otherwise one of the assets |
| `Selection.SelectAssetForCurrentPlatform` | src/codexu.py:355-373 | the same, with the platform names normalised first |
| `Selection.CliOsArchGroupIsTier` | src/codexu.py:362 | the first group is tier 0, CLI and OS and arch, in list order |
| `Selection.OsArchGroupIsTier` | src/codexu.py:363 | the second group is tier 1, OS and arch |
| `Selection.CliOsGroupIsTier` | src/codexu.py:364 | the third group is tier 2, CLI and OS |
| `Selection.OsGroupIsTier` | src/codexu.py:365 | the fourth group is tier 3, OS |
| `Selection.CliGroupIsTier` | src/codexu.py:366 | the fifth group is tier 4, CLI |
| `Selection.AllGroupIsTier` | src/codexu.py:367 | the last group is tier 5, every asset |
| `Selection.CandidateGroupsAreTiers` | src/codexu.py:360-368 | group k is exactly tier k, order included |
| `Selection.CascadePicksFirstNonEmpty` | src/codexu.py:370-372 | the loop returns the best of the first non-empty group |
| `Selection.EarlierGroupsEmpty` | src/codexu.py:370-371 | groups whose tiers have no asset are skipped |
| `Selection.ChoiceWithinTier` | src/codexu.py:372 | the choice lies in the tier and outscores or ties every asset in it |
| `Selection.SelectionPicksFirstBestOfFirstTier` | src/codexu.py:355-373 | the result comes from the first non-empty tier; it scores highest there and is the first asset with that score |
| `Selection.FirstOfTierInListOrder` | src/codexu.py:355-373 | an asset that beats every earlier member of its tier sits in the full list after only lower-scoring assets of that tier |
| `Selection.SelectionIsFirstBestInListOrder` | src/codexu.py:355-373 | in the full asset list, every asset of the winning tier listed before the chosen one scores strictly lower |
| `Selection.ExactCliMatchWins` | src/codexu.py:360-372 | when some CLI asset matches both keys, the result is such an asset |
| `Selection.DarwinNamesMatchWindowsKey` | src/codexu.py:402-406 | any name containing `darwin` matches the `windows` key through `win` |
| `Selection.UnknownArchMatchesNothing` | src/codexu.py:409-413 | a machine name outside the architecture table matches no asset |
| `Selection.FalsyKeysFilterNothing` | src/codexu.py:402-413 | a `None` or empty key matches every asset, so the OS and OS-and-architecture filters keep the whole list in order |
| `Selection.LinuxPrefersTarGz` | src/codexu.py:420-430 | under the linux key `.tar.gz` scores 4 and `.zip` scores 1 |
| `Selection.DarwinPrefersTarGz` | src/codexu.py:419-430 | under the darwin key `.tar.gz` scores 4 and `.zip` scores 3 |
| `Selection.UnlistedOsPrefersZip` | src/codexu.py:416-430 | under any OS key but darwin and linux (windows, an unknown key, or none) `.zip` scores 4 and `.tar.gz` scores 3 |
| `Archive.LastN` | src/codexu.py:259 | Python's `xs[-n:]`: the last n items, or all of them when n is 0 or too large |
| `Archive.TailMatches` | src/codexu.py:259 | the slice comparison for a one- or two-suffix pattern is a test of the last one or two suffixes |
| `Archive.SpellsIffKnown` | src/codexu.py:39-48 | the eight patterns are exactly the known tar tails |
| `Archive.MatchIffSpells` | src/codexu.py:258-259 | each pattern's slice test is the spelling test |
| `Archive.TarIffKnownTail` | src/codexu.py:258-267 | the tar loop succeeds exactly on a known tar tail |
| `Archive.ZipIffLastZip` | src/codexu.py:248 | zip exactly when the last lower-cased suffix is `.zip` |
| `Archive.ZipNotKnownTar` | src/codexu.py:248-259 | a `.zip` tail is no tar tail |
| `Archive.ClassifyLoweredByTail` | src/codexu.py:248-269 | zip, tar and pass-through in terms of the last two lower-cased suffixes, each as an if-and-only-if |
| `Archive.ClassifyByTail` | src/codexu.py:245-269 | the same, for suffixes in any letter case |
| `Archive.TarZstIsTar` | src/codexu.py:43 | `.tar.zst` is a tar archive |
| `Archive.BareGzIsRaw` | src/codexu.py:258-269 | a bare `.gz` is passed through |
| `Archive.BareZstIsRaw` | src/codexu.py:258-269 | a bare `.zst` is passed through |
| `Archive.UpperCaseZipIsZip` | src/codexu.py:247-248 | `.ZIP` is a zip archive |
| `Archive.VersionedTarballIsTar` | src/codexu.py:247-267 | `codex-0.46.0-linux.tar.gz` is a tar archive despite its dotted version |
| `Archive.LowerAllIdempotent` | src/codexu.py:247 | the lowered suffix list is already lower case: lowering it again changes nothing |
| `Archive.ExtractArchive` | src/codexu.py:245-269 | pass-through returns the file itself; an archive returns the unpacked tree, the zip or tar `CodexUError` when its decoder raised one of the converted exceptions, and an unconverted error, which is not a `CodexUError`, when it raised anything else |
| `Archive.ExtractFailureReportedIffConverted` | src/codexu.py:245-269 | when an archive's decoder raised, extraction fails, and the failure is a `CodexUError` that `main` reports exactly when the exception was one of the converted ones |
| `Locator.CodexNameIgnoresCase` | src/codexu.py:437-442 | the name test is blind to letter case |
| `Locator.CodexNameIgnoresExe` | src/codexu.py:438-439 | appending `.exe` to a name that lacks it does not change the verdict |
| `Locator.CodexNameStartsWithCodex` | src/codexu.py:439-442 | every accepted name starts with `codex` in some case |
| `Locator.NoKeywordWithoutTheirLastLetters` | src/codexu.py:440 | a stem with no `s`, `y`, `k` or `m` names no non-CLI artifact |
| `Locator.PlainNamesAccepted` | src/codexu.py:437-442 | `codex` and `codex.exe` are accepted in any case |
| `Locator.TripleNameAccepted` | src/codexu.py:437-442 | `codex-x86_64` is accepted in any case |
| `Locator.SdkNameRejected` | src/codexu.py:440-441 | `codex-sdk` is rejected |
| `Locator.DoubleExeRejected` | src/codexu.py:437-442 | `codex.exe.exe`, in any letter case, is not accepted as a binary name |
| `Locator.Candidates` | src/codexu.py:277-280 | exactly the regular files of the walk whose names qualify |
| `Locator.LocateCodexBinary` | src/codexu.py:272-290 | a result is always a candidate; on a directory, `None` exactly when no entry qualifies, and otherwise an entry of the walk; a single file is returned exactly when it qualifies |
| `Locator.NoExeCandidate` | src/codexu.py:285-288 | without an `.exe` candidate the Windows loop finds nothing |
| `Locator.LocatePicksFirstCandidate` | src/codexu.py:282-290 | off Windows, or with no `.exe` candidate, the first qualifying entry of the walk is returned |
| `Locator.LocateWindowsPrefersExe` | src/codexu.py:285-288 | on Windows the first qualifying `.exe` entry is returned whenever one exists |
| `Locator.DispatchAgreesWithLocator` | src/codexu.py:212-217 | for the files extraction hands on, the caller's dispatch is the locator |
| `Locator.Dispatch` | src/codexu.py:210-222 | a binary is only ever returned with a qualifying name |
| `Locator.ResolveBinary` | src/codexu.py:210-222 | from download to binary: a binary is only ever returned with a qualifying name |
| `Locator.DispatchExtractionFailure` | src/codexu.py:210 | an extraction error surfaces exactly when extraction failed, unchanged |
| `Locator.DispatchRawDownload` | src/codexu.py:214-222 | a passed-through download is the binary exactly when its own name qualifies |
| `Locator.DispatchUnpackedArchive` | src/codexu.py:212-222 | an unpacked archive yields a binary exactly when one of its regular files qualifies, and the binary is one of them |
| `Installer.StagingPath` | src/codexu.py:296 | the staging file is in the live binary's directory, its name five characters longer (`.<name>.new`) |
| `Installer.BackupPath` | src/codexu.py:297 | the backup is in the live binary's directory, its name four characters longer (`<name>.bak`) |
| `Installer.ThreePathsDistinct` | src/codexu.py:295-297 | live, staging and backup are three different paths |
| `Installer.AddExec` | src/codexu.py:326 | the execute bits are set and no other permission bit moves |
| `Installer.CopyFile` | src/codexu.py:299 | the copy succeeds exactly when it does not fault, the source exists and differs from the destination; the destination then holds the source's file and nothing else changes |
| `Installer.MakeExecutable` | src/codexu.py:321-326 | nothing happens on Windows; elsewhere the file keeps its bytes and gains the execute bits, or the call fails when the file is gone |
| `Installer.Unlink` | src/codexu.py:303 | succeeds exactly on an existing path and removes only it |
| `Installer.Rename` | src/codexu.py:307 | succeeds exactly when the source exists; the destination then holds the source's file and the source is gone |
| `Installer.StageFacts` | src/codexu.py:299-300 | the staged file is the new binary and nothing else moved; the chmod fails only where one runs |
| `Installer.SwapFrame` | src/codexu.py:302-316 | the swap touches only the live, staging and backup paths |
| `Installer.SwapSucceedsExactly` | src/codexu.py:302-316 | the swap succeeds exactly when no call on its path fails |
| `Installer.SwapSuccess` | src/codexu.py:302-310 | after a successful swap the staged file is live, the old live file is the backup (or there is none), and staging is free |
| `Installer.SwapPlacementFailure` | src/codexu.py:309-316 | a failed final rename leaves the staged file in place, restores the old live file, and keeps no backup |
| `Installer.SwapKeepsOldBinary` | src/codexu.py:302-316 | the old live binary survives at the live or the backup path |
| `Installer.SwapErrorIsFirstFailure` | src/codexu.py:302-316 | the first failing call of the swap names the error: raw unlink, move-to-backup or move-back errors, and `PlacementFailed` exactly when the final rename fails and no move back fails |
| `Installer.InstallSucceedsExactly` | src/codexu.py:293-318 | success is reported exactly when no call on the path fails, never after a failed final rename |
| `Installer.SuccessfulInstall` | src/codexu.py:293-326 | after success the live path holds the source's bytes with execute bits off Windows, the backup holds the previous binary or is absent, and staging is free |
| `Installer.InstallFrame` | src/codexu.py:293-316 | the whole protocol touches only the three install paths |
| `Installer.FailedPlacement` | src/codexu.py:309-316 | after the wrapped error the staged binary stays, the live path is as before, and no backup is kept |
| `Installer.OldBinaryKept` | src/codexu.py:302-316 | the previous binary is never lost; it leaves the live path only on success or when the move back fails |
| `Installer.InstallErrorIsFirstFailure` | src/codexu.py:293-318 | each raised error is named by the first failing call, each as an if-and-only-if: raw `OSError` for the copy, chmod, unlink, move to backup and move back; `CodexUError` only for the final rename; never the final rename's bare error |
| `Installer.KeysAfterInstall` | src/codexu.py:302-310 | the paths present after a successful install |
| `Installer.CleanInstall` | src/codexu.py:293-318 | a fault-free install from a source outside the install paths succeeds, with the stated live, backup and path set |
| `Installer.InstallOverLive` | src/codexu.py:302-310 | an install over a live binary keeps exactly that binary as the one backup |
| `Installer.RepeatedInstallsKeepOneBackup` | src/codexu.py:293-318 | after two or more fault-free installs the last source is live, the one before is the backup, and staging is free |

## Left out

- Network access (release lookup, metadata fetch, download, src/codexu.py:99-114, 235-242, 329-352): HTTP calls with no decision logic. Their results enter only as the two `Option` arguments of `UpdateGate` and as the asset list.
- Subprocess glue (`get_installed_version`, `start_codex`, install-method detection, `run_command`, the brew and npm branches of `update_codex`, src/codexu.py:78-185): they only run commands and check exit codes.
- Version.UpdateGate: the callers' own `if not version` checks are in the subprocess and network glue above. An empty token reaching the gate is compared like any other.
- src/install.py is not part of this model: it downloads a script and writes files with no decision logic worth proving.
- Real zip and tar decoding: the decoders are foreign. `ExtractArchive` receives what they did as a `Decoded` value: the unpacked entries, a raise of an exception the code converts (`BadZipFile` or `OSError` for zip, `TarError` or `OSError` for tar), or a raise of anything else. Which exceptions a given malformed file triggers is not modelled.
- The missing-download-URL error (src/codexu.py:199-202) belongs to the download step above. `Selection.Asset` keeps only the name.
- The creation of the `extracted` directory, and temporary-directory handling: file-system plumbing around the decoders.
- `Path.suffixes` is an input. The Windows test `Path.suffix == ".exe"` is modelled directly, as a name longer than `.exe` that ends in it.
- The order of `rglob` is an input sequence. So are `platform.system()`, `platform.machine()` and `os.name`, the last as the `posix` flag.
- Unicode: `lower`, `strip`, `\w` and `\d` are modelled over ASCII.
- `shutil.copy2` copies contents and permission bits as one step. Timestamps, partial writes and metadata other than the mode are not modelled.
- Printing progress messages is not modelled.
- Selection.ChooseBestPackaging: requires a non-empty group. Python's `max` would raise on an empty one, but the only caller guards with `if group:`.
- Selection.Asset: a `None` name means the JSON key is missing, and it is read as `""`, as `asset.get("name", "")` does. An explicit `"name": null` would make the `.lower()` calls (src/codexu.py:379, 405, 426) raise `AttributeError`. That crash is not modelled.
