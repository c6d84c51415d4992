/** Choosing the release asset to download for the running platform:
    keyword filters, a six-step relaxation cascade, and a packaging
    preference broken by list order. */
module Selection {
  import opened Wrappers
  import opened Strings
  import opened Seqs
  import Tables
  import Platform

  /** One entry of a release's `assets` list, reduced to the one key the
      selection reads; a missing `name` is `None`. Its download URL is read
      only by the download step, which this model leaves out. */
  datatype Asset = Asset(name: Option<string>)

  /** `asset.get("name", "").lower()` */
  function LowerName(a: Asset): string {
    Lower(a.name.GetOr(""))
  }

  /** Python falsiness of a platform key: `None` or the empty string. */
  predicate IsFalsy(key: Option<string>) {
    key.None? || key.value == []
  }

  /** Kept by `_filter_cli_assets`: a non-empty name free of NON_CLI_KEYWORDS. */
  predicate IsCliAsset(a: Asset) {
    LowerName(a) != [] && !ContainsAny(LowerName(a), Tables.NonCliKeywords)
  }

  /** `_matches_os`: a falsy key matches everything; otherwise some keyword
      of the key occurs in the lower-case name. */
  predicate MatchesOs(a: Asset, osKey: Option<string>) {
    IsFalsy(osKey) || ContainsAny(LowerName(a), Tables.OsKeywords(osKey.value))
  }

  /** `_matches_arch`, the same rule over ARCH_KEYWORDS. */
  predicate MatchesArch(a: Asset, archKey: Option<string>) {
    IsFalsy(archKey) || ContainsAny(LowerName(a), Tables.ArchKeywords(archKey.value))
  }

  function OsArchMatcher(osKey: Option<string>, archKey: Option<string>): Asset -> bool {
    a => MatchesOs(a, osKey) && MatchesArch(a, archKey)
  }

  function OsMatcher(osKey: Option<string>): Asset -> bool {
    a => MatchesOs(a, osKey)
  }

  /** _filter_cli_assets */
  function FilterCliAssets(assets: seq<Asset>): (r: seq<Asset>)
    ensures forall a :: a in r <==> a in assets && IsCliAsset(a)
  {
    Filter(IsCliAsset, assets)
  }

  /** _filter_by_os_and_arch */
  function FilterByOsAndArch(assets: seq<Asset>, osKey: Option<string>, archKey: Option<string>): (r: seq<Asset>)
    ensures forall a :: a in r <==> a in assets && MatchesOs(a, osKey) && MatchesArch(a, archKey)
  {
    Filter(OsArchMatcher(osKey, archKey), assets)
  }

  /** _filter_by_os */
  function FilterByOs(assets: seq<Asset>, osKey: Option<string>): (r: seq<Asset>)
    ensures forall a :: a in r <==> a in assets && MatchesOs(a, osKey)
  {
    Filter(OsMatcher(osKey), assets)
  }

  /** The `preferences` table of `_choose_best_packaging`; a key outside it
      (including a falsy one) gets the entry stored under `None`. */
  function PreferredOrder(osKey: Option<string>): (order: seq<string>)
    ensures |order| == 4
  {
    if osKey == Some("windows") then [".zip", ".tar.gz", ".tar", ".zst"]
    else if osKey == Some("darwin") then [".tar.gz", ".zip", ".tar", ".zst"]
    else if osKey == Some("linux") then [".tar.gz", ".tar", ".zst", ".zip"]
    else [".zip", ".tar.gz", ".tar", ".zst"]
  }

  /** The inner `score` loop from position `idx` on: `len(order) - i` for the
      first suffix `order[i]` the name ends with, 0 when none does. */
  function ScoreFrom(name: string, order: seq<string>, idx: nat): (s: nat)
    requires idx <= |order|
    ensures s <= |order| - idx
    ensures s == 0 <==> forall j :: idx <= j < |order| ==> !EndsWith(name, order[j])
    ensures s > 0 ==> EndsWith(name, order[|order| - s])
    ensures s > 0 ==> forall j :: idx <= j < |order| - s ==> !EndsWith(name, order[j])
    decreases |order| - idx
  {
    if idx == |order| then 0
    else if EndsWith(name, order[idx]) then |order| - idx
    else ScoreFrom(name, order, idx + 1)
  }

  /** `score(asset)` under the preference list of `osKey`. */
  function PackagingScore(a: Asset, osKey: Option<string>): (s: nat)
    ensures s <= 4
  {
    ScoreFrom(LowerName(a), PreferredOrder(osKey), 0)
  }

  /** The scores of a group, position by position: one per asset, each
      between 0 (no preferred suffix) and 4 (the most preferred one). */
  function Scores(group: seq<Asset>, osKey: Option<string>): (scores: seq<int>)
    ensures |scores| == |group|
    ensures forall i :: 0 <= i < |scores| ==> 0 <= scores[i] <= 4
  {
    seq(|group|, i requires 0 <= i < |group| => PackagingScore(group[i], osKey))
  }

  /** _choose_best_packaging, i.e. `max(group, key=score)`: an asset of the
      group with the highest score, the first such one in group order. */
  function ChooseBestPackaging(group: seq<Asset>, osKey: Option<string>): (a: Asset)
    requires group != []
    ensures a in group
    ensures forall b :: b in group ==> PackagingScore(b, osKey) <= PackagingScore(a, osKey)
    ensures exists i :: 0 <= i < |group| && group[i] == a
                        && forall j :: 0 <= j < i ==> PackagingScore(group[j], osKey) < PackagingScore(a, osKey)
  {
    var scores := Scores(group, osKey);
    assert forall j :: 0 <= j < |group| ==> scores[j] == PackagingScore(group[j], osKey);
    var i := FirstArgMax(scores);
    assert forall j :: 0 <= j < i ==> PackagingScore(group[j], osKey) < PackagingScore(group[i], osKey);
    group[i]
  }

  /** `candidate_groups` of select_asset_for_current_platform, in order. */
  function CandidateGroups(assets: seq<Asset>, osKey: Option<string>, archKey: Option<string>): (groups: seq<seq<Asset>>)
    ensures |groups| == 6
    ensures groups[5] == assets
    ensures forall k, a :: 0 <= k < 6 && a in groups[k] ==> a in assets
  {
    var filtered := FilterCliAssets(assets);
    [ FilterByOsAndArch(filtered, osKey, archKey),
      FilterByOsAndArch(assets, osKey, archKey),
      FilterByOs(filtered, osKey),
      FilterByOs(assets, osKey),
      filtered,
      assets ]
  }

  /** The loop `for group in candidate_groups: if group: return ...`. */
  function Cascade(groups: seq<seq<Asset>>, osKey: Option<string>): (r: Option<Asset>)
    ensures r.None? <==> forall k :: 0 <= k < |groups| ==> groups[k] == []
    ensures r.Some? ==> exists k :: 0 <= k < |groups| && r.value in groups[k]
    decreases |groups|
  {
    if groups == [] then None
    else if groups[0] != [] then Some(ChooseBestPackaging(groups[0], osKey))
    else
      var r := Cascade(groups[1..], osKey);
      assert forall k :: 1 <= k < |groups| ==> groups[k] == groups[1..][k - 1];
      r
  }

  /** select_asset_for_current_platform with the platform keys as inputs. */
  function SelectForKeys(assets: seq<Asset>, osKey: Option<string>, archKey: Option<string>): (r: Option<Asset>)
    ensures r.None? <==> assets == []
    ensures r.Some? ==> r.value in assets
  {
    Cascade(CandidateGroups(assets, osKey, archKey), osKey)
  }

  /** select_asset_for_current_platform: `system` and `machine` stand for
      `platform.system()` and `platform.machine()`. */
  function SelectAssetForCurrentPlatform(assets: seq<Asset>, system: string, machine: string): (r: Option<Asset>)
    ensures r.None? <==> assets == []
    ensures r.Some? ==> r.value in assets
  {
    SelectForKeys(assets, Platform.NormalizeOs(Some(system)), Platform.NormalizeArch(Some(machine)))
  }

  // ---------------------------------------------------------------------
  // The cascade as a ranking of assets into six tiers.

  /** Tier `k` of the relaxation: 0 CLI + OS + arch, 1 OS + arch, 2 CLI + OS,
      3 OS, 4 CLI, 5 anything. */
  predicate InTier(a: Asset, k: nat, osKey: Option<string>, archKey: Option<string>) {
    if k == 0 then IsCliAsset(a) && MatchesOs(a, osKey) && MatchesArch(a, archKey)
    else if k == 1 then MatchesOs(a, osKey) && MatchesArch(a, archKey)
    else if k == 2 then IsCliAsset(a) && MatchesOs(a, osKey)
    else if k == 3 then MatchesOs(a, osKey)
    else if k == 4 then IsCliAsset(a)
    else true
  }

  function TierMatcher(k: nat, osKey: Option<string>, archKey: Option<string>): Asset -> bool {
    a => InTier(a, k, osKey, archKey)
  }

  /** The assets of tier `k`, in list order. */
  function Tier(assets: seq<Asset>, k: nat, osKey: Option<string>, archKey: Option<string>): seq<Asset> {
    Filter(TierMatcher(k, osKey, archKey), assets)
  }

  lemma CliOsArchGroupIsTier(assets: seq<Asset>, osKey: Option<string>, archKey: Option<string>)
    ensures FilterByOsAndArch(FilterCliAssets(assets), osKey, archKey) == Tier(assets, 0, osKey, archKey)
  {
    FilterFilter(OsArchMatcher(osKey, archKey), IsCliAsset, TierMatcher(0, osKey, archKey), assets);
  }

  lemma OsArchGroupIsTier(assets: seq<Asset>, osKey: Option<string>, archKey: Option<string>)
    ensures FilterByOsAndArch(assets, osKey, archKey) == Tier(assets, 1, osKey, archKey)
  {
    FilterExt(OsArchMatcher(osKey, archKey), TierMatcher(1, osKey, archKey), assets);
  }

  lemma CliOsGroupIsTier(assets: seq<Asset>, osKey: Option<string>, archKey: Option<string>)
    ensures FilterByOs(FilterCliAssets(assets), osKey) == Tier(assets, 2, osKey, archKey)
  {
    FilterFilter(OsMatcher(osKey), IsCliAsset, TierMatcher(2, osKey, archKey), assets);
  }

  lemma OsGroupIsTier(assets: seq<Asset>, osKey: Option<string>, archKey: Option<string>)
    ensures FilterByOs(assets, osKey) == Tier(assets, 3, osKey, archKey)
  {
    FilterExt(OsMatcher(osKey), TierMatcher(3, osKey, archKey), assets);
  }

  lemma CliGroupIsTier(assets: seq<Asset>, osKey: Option<string>, archKey: Option<string>)
    ensures FilterCliAssets(assets) == Tier(assets, 4, osKey, archKey)
  {
    FilterExt(IsCliAsset, TierMatcher(4, osKey, archKey), assets);
  }

  lemma AllGroupIsTier(assets: seq<Asset>, osKey: Option<string>, archKey: Option<string>)
    ensures assets == Tier(assets, 5, osKey, archKey)
  {
    FilterKeepsAll(TierMatcher(5, osKey, archKey), assets);
  }

  /** Each candidate group is exactly the corresponding tier, order included. */
  lemma CandidateGroupsAreTiers(assets: seq<Asset>, osKey: Option<string>, archKey: Option<string>, k: nat)
    requires k < 6
    ensures CandidateGroups(assets, osKey, archKey)[k] == Tier(assets, k, osKey, archKey)
  {
    if k == 0 {
      CliOsArchGroupIsTier(assets, osKey, archKey);
    } else if k == 1 {
      OsArchGroupIsTier(assets, osKey, archKey);
    } else if k == 2 {
      CliOsGroupIsTier(assets, osKey, archKey);
    } else if k == 3 {
      OsGroupIsTier(assets, osKey, archKey);
    } else if k == 4 {
      CliGroupIsTier(assets, osKey, archKey);
    } else {
      AllGroupIsTier(assets, osKey, archKey);
    }
  }

  /** The cascade returns the best of the first non-empty group. */
  lemma {:induction false} CascadePicksFirstNonEmpty(groups: seq<seq<Asset>>, osKey: Option<string>, k: nat)
    requires k < |groups| && groups[k] != []
    requires forall j :: 0 <= j < k ==> groups[j] == []
    ensures Cascade(groups, osKey) == Some(ChooseBestPackaging(groups[k], osKey))
    decreases k
  {
    if k > 0 {
      var rest := groups[1..];
      assert groups[0] == [];
      assert rest[k - 1] == groups[k];
      assert forall j :: 0 <= j < k - 1 ==> rest[j] == groups[j + 1];
      CascadePicksFirstNonEmpty(rest, osKey, k - 1);
      assert Cascade(groups, osKey) == Cascade(rest, osKey);
    }
  }

  /** Groups before a tier with no assets in the earlier tiers are empty. */
  lemma EarlierGroupsEmpty(assets: seq<Asset>, osKey: Option<string>, archKey: Option<string>, k: nat)
    requires k < 6
    requires forall j, a :: 0 <= j < k && a in assets ==> !InTier(a, j, osKey, archKey)
    ensures forall j :: 0 <= j < k ==> CandidateGroups(assets, osKey, archKey)[j] == []
  {
    forall j | 0 <= j < k
      ensures CandidateGroups(assets, osKey, archKey)[j] == []
    {
      CandidateGroupsAreTiers(assets, osKey, archKey, j);
      FilterDropsAll(TierMatcher(j, osKey, archKey), assets);
    }
  }

  /** What choosing within a non-empty tier promises, in terms of the tier. */
  lemma ChoiceWithinTier(assets: seq<Asset>, osKey: Option<string>, archKey: Option<string>, k: nat)
    requires Tier(assets, k, osKey, archKey) != []
    ensures var g := Tier(assets, k, osKey, archKey);
            var r := ChooseBestPackaging(g, osKey);
            && r in assets
            && InTier(r, k, osKey, archKey)
            && (forall b :: b in assets && InTier(b, k, osKey, archKey) ==> PackagingScore(b, osKey) <= PackagingScore(r, osKey))
  {
    var g := Tier(assets, k, osKey, archKey);
    var r := ChooseBestPackaging(g, osKey);
    assert r in g;
    forall b | b in assets && InTier(b, k, osKey, archKey)
      ensures PackagingScore(b, osKey) <= PackagingScore(r, osKey)
    {
      assert b in g;
    }
  }

  /** The selection rule as a whole: the result comes from the first tier
      that has any asset; it has the highest packaging score in that tier,
      and no asset before it in the tier scores as high. */
  lemma SelectionPicksFirstBestOfFirstTier(assets: seq<Asset>, osKey: Option<string>, archKey: Option<string>, k: nat)
    requires k < 6
    requires exists a :: a in assets && InTier(a, k, osKey, archKey)
    requires forall j, a :: 0 <= j < k && a in assets ==> !InTier(a, j, osKey, archKey)
    ensures SelectForKeys(assets, osKey, archKey).Some?
    ensures var r := SelectForKeys(assets, osKey, archKey).value;
            var g := Tier(assets, k, osKey, archKey);
            && r in assets
            && InTier(r, k, osKey, archKey)
            && (forall b :: b in assets && InTier(b, k, osKey, archKey) ==> PackagingScore(b, osKey) <= PackagingScore(r, osKey))
            && (exists i :: 0 <= i < |g| && g[i] == r
                  && forall j :: 0 <= j < i ==> PackagingScore(g[j], osKey) < PackagingScore(r, osKey))
  {
    var groups := CandidateGroups(assets, osKey, archKey);
    EarlierGroupsEmpty(assets, osKey, archKey, k);
    CandidateGroupsAreTiers(assets, osKey, archKey, k);
    var g := Tier(assets, k, osKey, archKey);
    var a :| a in assets && InTier(a, k, osKey, archKey);
    assert a in g;
    CascadePicksFirstNonEmpty(groups, osKey, k);
    ChoiceWithinTier(assets, osKey, archKey, k);
  }

  /** The same choice read against the full asset list: the chosen asset
      sits at a position before which every asset of its tier scores
      strictly lower, so ties go to the asset listed first. */
  lemma SelectionIsFirstBestInListOrder(assets: seq<Asset>, osKey: Option<string>, archKey: Option<string>, k: nat)
    requires k < 6
    requires exists a :: a in assets && InTier(a, k, osKey, archKey)
    requires forall j, a :: 0 <= j < k && a in assets ==> !InTier(a, j, osKey, archKey)
    ensures SelectForKeys(assets, osKey, archKey).Some?
    ensures var r := SelectForKeys(assets, osKey, archKey).value;
            exists m :: 0 <= m < |assets| && assets[m] == r
              && forall j :: 0 <= j < m && InTier(assets[j], k, osKey, archKey) ==>
                   PackagingScore(assets[j], osKey) < PackagingScore(r, osKey)
  {
    SelectionPicksFirstBestOfFirstTier(assets, osKey, archKey, k);
    var g := Tier(assets, k, osKey, archKey);
    var r := SelectForKeys(assets, osKey, archKey).value;
    var i :| 0 <= i < |g| && g[i] == r
             && forall j :: 0 <= j < i ==> PackagingScore(g[j], osKey) < PackagingScore(r, osKey);
    FirstOfTierInListOrder(assets, osKey, archKey, k, i);
  }

  /** An asset that beats every earlier member of its tier also beats every
      earlier asset of that tier in the full list. */
  lemma FirstOfTierInListOrder(assets: seq<Asset>, osKey: Option<string>, archKey: Option<string>, k: nat, i: nat)
    requires i < |Tier(assets, k, osKey, archKey)|
    requires var g := Tier(assets, k, osKey, archKey);
             forall j :: 0 <= j < i ==> PackagingScore(g[j], osKey) < PackagingScore(g[i], osKey)
    ensures var r := Tier(assets, k, osKey, archKey)[i];
            exists m :: 0 <= m < |assets| && assets[m] == r
              && forall j :: 0 <= j < m && InTier(assets[j], k, osKey, archKey) ==>
                   PackagingScore(assets[j], osKey) < PackagingScore(r, osKey)
  {
    var m := FilterFirstBest(TierMatcher(k, osKey, archKey), a => PackagingScore(a, osKey), assets, i);
  }

  /** Selecting on the exact platform: when some CLI asset matches both the
      OS and the architecture, the chosen asset is such an asset. */
  lemma ExactCliMatchWins(assets: seq<Asset>, osKey: Option<string>, archKey: Option<string>, a: Asset)
    requires a in assets && IsCliAsset(a) && MatchesOs(a, osKey) && MatchesArch(a, archKey)
    ensures SelectForKeys(assets, osKey, archKey).Some?
    ensures var r := SelectForKeys(assets, osKey, archKey).value;
            IsCliAsset(r) && MatchesOs(r, osKey) && MatchesArch(r, archKey)
  {
    assert InTier(a, 0, osKey, archKey);
    SelectionPicksFirstBestOfFirstTier(assets, osKey, archKey, 0);
  }

  // ---------------------------------------------------------------------
  // Consequences of substring matching.

  /** "darwin" contains "win", so every darwin-named asset matches the
      windows key. */
  lemma DarwinNamesMatchWindowsKey(a: Asset)
    requires Contains(LowerName(a), "darwin")
    ensures MatchesOs(a, Some("windows"))
  {
    assert "win" <= "darwin"[3..];
    ContainsTransitive(LowerName(a), "darwin", "win");
    assert Tables.OsKeywords("windows")[2] == "win";
  }

  /** A machine name outside ARCH_KEYWORDS passes through normalize_arch as a
      non-empty key with no keywords, so no asset matches it. */
  lemma UnknownArchMatchesNothing(a: Asset, machine: string)
    requires machine != []
    requires Platform.NormalizeArch(Some(machine)) != Some("x86_64")
    requires Platform.NormalizeArch(Some(machine)) != Some("arm64")
    ensures !MatchesArch(a, Platform.NormalizeArch(Some(machine)))
  {
  }

  /** A falsy key (`None` or empty) matches every asset, so the OS and
      architecture filters keep the whole list, in order. */
  lemma FalsyKeysFilterNothing(assets: seq<Asset>, osKey: Option<string>, archKey: Option<string>)
    requires IsFalsy(osKey) && IsFalsy(archKey)
    ensures FilterByOsAndArch(assets, osKey, archKey) == assets
    ensures FilterByOs(assets, osKey) == assets
  {
    FilterKeepsAll(OsArchMatcher(osKey, archKey), assets);
    FilterKeepsAll(OsMatcher(osKey), assets);
  }

  /** Under the linux key `.tar.gz` is preferred most and `.zip` least. */
  lemma LinuxPrefersTarGz(a: Asset, b: Asset)
    requires EndsWith(LowerName(a), ".tar.gz")
    requires EndsWith(LowerName(b), ".zip")
    ensures PackagingScore(a, Some("linux")) == 4
    ensures PackagingScore(b, Some("linux")) == 1
  {
    var n := LowerName(b);
    var order := PreferredOrder(Some("linux"));
    assert order == [".tar.gz", ".tar", ".zst", ".zip"];
    assert n[|n| - 1] == 'p';
    assert !EndsWith(n, order[0]) && !EndsWith(n, order[1]) && !EndsWith(n, order[2]);
    assert ScoreFrom(n, order, 3) == 1;
    assert ScoreFrom(n, order, 0) == 1;
  }

  /** Under the darwin key `.tar.gz` outranks `.zip`, which comes second. */
  lemma DarwinPrefersTarGz(a: Asset, b: Asset)
    requires EndsWith(LowerName(a), ".tar.gz")
    requires EndsWith(LowerName(b), ".zip")
    ensures PackagingScore(a, Some("darwin")) == 4
    ensures PackagingScore(b, Some("darwin")) == 3
  {
    var n := LowerName(b);
    var order := PreferredOrder(Some("darwin"));
    assert order == [".tar.gz", ".zip", ".tar", ".zst"];
    assert n[|n| - 1] == 'p';
    assert !EndsWith(n, order[0]);
    assert ScoreFrom(n, order, 1) == 3;
    assert ScoreFrom(n, order, 0) == 3;
  }

  /** With an OS key outside the preference table, `.zip` outranks `.tar.gz`
      (the order stored under `None`, the same as windows). */
  lemma UnlistedOsPrefersZip(osKey: Option<string>, a: Asset, b: Asset)
    requires osKey != Some("darwin") && osKey != Some("linux")
    requires EndsWith(LowerName(a), ".zip")
    requires EndsWith(LowerName(b), ".tar.gz")
    ensures PackagingScore(a, osKey) == 4
    ensures PackagingScore(b, osKey) == 3
  {
    var n := LowerName(b);
    var order := PreferredOrder(osKey);
    assert order == [".zip", ".tar.gz", ".tar", ".zst"];
    assert n[|n| - 4] == ".tar.gz"[3];
    assert !EndsWith(n, order[0]);
    assert ScoreFrom(n, order, 1) == 3;
    assert ScoreFrom(n, order, 0) == 3;
  }
}
