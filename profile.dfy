/**
 * src/profile.ts: the settings and capabilities the extension runs with.
 * The output of `cargo --version` is a parameter (`None` when running the
 * command throws), and so is the configured `runLinterOnSave`.
 */
module Profile {
  import opened Wrappers
  import opened Text

  datatype CheckVersion = Official | Unofficial

  /**
   * The version the pattern `[0-9]+\.[0-9]+(\.[0-9]+)?` matches when it
   * starts at `i`: digits, a dot and at least one digit; major and minor are
   * the two digit runs (what `split(".")` and `parseInt` give).
   */
  function VersionAt(s: string, i: nat): Option<(nat, nat)>
    requires i <= |s|
  {
    match ReadNumber(s[i..])
    case None => None
    case Some((major, rest)) =>
      if rest == [] || rest[0] != '.' then None
      else
        match ReadNumber(rest[1..])
        case None => None
        case Some((minor, _)) => Some((major, minor))
  }

  /** `output.match(...)`: the leftmost match at or after `i`. */
  function FindVersion(s: string, i: nat): (r: Option<(nat, nat)>)
    requires i <= |s|
    ensures r.None? <==> forall k :: i <= k < |s| ==> VersionAt(s, k).None?
    ensures r.Some? ==> exists j :: i <= j < |s| && VersionAt(s, j) == r &&
                                    forall k :: i <= k < j ==> VersionAt(s, k).None?
    decreases |s| - i
  {
    if i == |s| then None
    else if VersionAt(s, i).Some? then VersionAt(s, i)
    else FindVersion(s, i + 1)
  }

  /** A run of non-digits is skipped: the search goes on after it. */
  lemma {:induction false} FindVersionSkips(s: string, i: nat, j: nat)
    requires i <= j <= |s|
    requires forall k :: i <= k < j ==> !IsDigit(s[k])
    ensures FindVersion(s, i) == FindVersion(s, j)
    decreases j - i
  {
    if i < j {
      assert s[i..][0] == s[i];
      FindVersionSkips(s, i + 1, j);
    }
  }

  /** The capability test as written: `major >= 0 && minor >= 16`. */
  predicate IsOfficialAsWritten(major: nat, minor: nat)
  {
    major >= 0 && minor >= 16
  }

  /** Version order: major first, then minor. */
  predicate VersionBelow(a: (nat, nat), b: (nat, nat))
  {
    a.0 < b.0 || (a.0 == b.0 && a.1 < b.1)
  }

  /** The capability test meant: the version is at least 0.16. */
  predicate IsOfficial(major: nat, minor: nat)
  {
    major > 0 || minor >= 16
  }

  /** Official exactly when the version is not below 0.16. */
  lemma IsOfficialMeansAtLeast016(major: nat, minor: nat)
    ensures IsOfficial(major, minor) <==> !VersionBelow((major, minor), (0, 16))
  {
  }

  function CheckTypeOf(v: (nat, nat)): CheckVersion
  {
    if IsOfficial(v.0, v.1) then Official else Unofficial
  }

  /**
   * `determineCheckType` with the intended test: `None` (the `null` of the
   * `catch`) when cargo cannot be run or its output holds no version.
   */
  function DetermineCheckType(output: Option<string>): (r: Option<CheckVersion>)
    ensures r.None? <==> output.None? || forall k :: 0 <= k < |output.value| ==> VersionAt(output.value, k).None?
    ensures r == Some(Official) <==>
              output.Some? && FindVersion(output.value, 0).Some? && !VersionBelow(FindVersion(output.value, 0).value, (0, 16))
    ensures r == Some(Unofficial) <==>
              output.Some? && FindVersion(output.value, 0).Some? && VersionBelow(FindVersion(output.value, 0).value, (0, 16))
  {
    match output
    case None => None
    case Some(s) =>
      match FindVersion(s, 0)
      case None => None
      case Some(v) => Some(CheckTypeOf(v))
  }

  /**
   * `determineCheckType` as written: official exactly when the minor
   * version is at least 16, whatever the major version.
   */
  function DetermineCheckTypeAsWritten(output: Option<string>): (r: Option<CheckVersion>)
    ensures r.None? <==> output.None? || forall k :: 0 <= k < |output.value| ==> VersionAt(output.value, k).None?
    ensures r == Some(Official) <==>
              output.Some? && FindVersion(output.value, 0).Some? && FindVersion(output.value, 0).value.1 >= 16
    ensures r == Some(Unofficial) <==>
              output.Some? && FindVersion(output.value, 0).Some? && FindVersion(output.value, 0).value.1 < 16
  {
    match output
    case None => None
    case Some(s) =>
      match FindVersion(s, 0)
      case None => None
      case Some(v) => Some(if IsOfficialAsWritten(v.0, v.1) then Official else Unofficial)
  }

  /**
   * The two tests part exactly on the versions from 1.0 up whose minor
   * version is below 16: those are at least 0.16, yet classed as unofficial.
   */
  lemma AsWrittenDiffersIff(output: Option<string>)
    ensures DetermineCheckTypeAsWritten(output) != DetermineCheckType(output) <==>
              output.Some? && FindVersion(output.value, 0).Some? &&
              FindVersion(output.value, 0).value.0 > 0 && FindVersion(output.value, 0).value.1 < 16
    ensures DetermineCheckTypeAsWritten(output) != DetermineCheckType(output) ==>
              DetermineCheckTypeAsWritten(output) == Some(Unofficial) && DetermineCheckType(output) == Some(Official)
  {
  }

  /** As written, `cargo 1.5.0` is classed as unofficial; the intended test says official. */
  lemma DetermineCheckTypeAsWrittenMisclassifies()
    ensures DetermineCheckTypeAsWritten(Some("cargo 1.5.0")) == Some(Unofficial)
    ensures DetermineCheckType(Some("cargo 1.5.0")) == Some(Official)
  {
    assert NatToString(1) == "1" && NatToString(5) == "5";
    assert "cargo 1.5.0" == "cargo " + (NatToString(1) + ("." + (NatToString(5) + ".0")));
    CargoVersionIsRead("cargo ", 1, 5, ".0");
  }

  /** The version printed after a prefix without digits (such as `cargo `) is the one read. */
  lemma CargoVersionIsRead(prefix: string, major: nat, minor: nat, rest: string)
    requires forall k :: 0 <= k < |prefix| ==> !IsDigit(prefix[k])
    requires rest == [] || !IsDigit(rest[0])
    ensures FindVersion(prefix + (NatToString(major) + ("." + (NatToString(minor) + rest))), 0) == Some((major, minor))
  {
    var version := NatToString(major) + ("." + (NatToString(minor) + rest));
    var s := prefix + version;
    assert forall k :: 0 <= k < |prefix| ==> s[k] == prefix[k];
    FindVersionSkips(s, 0, |prefix|);
    assert s[|prefix|..] == version;
    VersionIsRead(major, minor, rest);
  }

  lemma VersionIsRead(major: nat, minor: nat, rest: string)
    requires rest == [] || !IsDigit(rest[0])
    ensures VersionAt(NatToString(major) + ("." + (NatToString(minor) + rest)), 0) == Some((major, minor))
  {
    var tail := NatToString(minor) + rest;
    var s := NatToString(major) + ("." + tail);
    assert s[0..] == s;
    ReadPrinted(major, "." + tail);
    assert ("." + tail)[1..] == tail;
    ReadPrinted(minor, rest);
  }

  /** `${b}` of a boolean. */
  function BoolText(b: bool): string
  {
    if b then "true" else "false"
  }

  /** `"un"` only for an unofficial check; `null` prints as official. */
  function CheckText(v: Option<CheckVersion>): string
  {
    (if v == Some(Unofficial) then "un" else "") + "official"
  }

  const SettingsHead := "Profile { \n            Settings: { \n                runLinterOnSave: "

  /** The text of `toString`. */
  function ProfileText(runLinterOnSave: bool, checkVersion: Option<CheckVersion>): string
  {
    SettingsHead + BoolText(runLinterOnSave) +
    "\n            }, \n            Capabilities: {\n                checkVersion: " + CheckText(checkVersion) +
    "\n            }\n        }"
  }

  /** The text tells the setting and whether the check is unofficial. */
  lemma ProfileTextDistinguishes(b1: bool, v1: Option<CheckVersion>, b2: bool, v2: Option<CheckVersion>)
    requires ProfileText(b1, v1) == ProfileText(b2, v2)
    ensures b1 == b2
    ensures (v1 == Some(Unofficial)) == (v2 == Some(Unofficial))
  {
    // The four combinations have four different lengths.
    ProfileTextLength(b1, v1);
    ProfileTextLength(b2, v2);
  }

  lemma ProfileTextLength(b: bool, v: Option<CheckVersion>)
    ensures |ProfileText(b, v)| == |ProfileText(false, None)| - (if b then 1 else 0) + (if v == Some(Unofficial) then 2 else 0)
  {
  }

  /** An unknown check (`null`) prints like an official one. */
  lemma NullPrintsAsOfficial(b: bool)
    ensures ProfileText(b, None) == ProfileText(b, Some(Official))
    ensures ProfileText(b, None) != ProfileText(b, Some(Unofficial))
  {
    assert CheckText(None) == CheckText(Some(Official));
    ProfileTextLength(b, None);
    ProfileTextLength(b, Some(Unofficial));
  }

  class Profile {
    var runLinterOnSave: bool
    var checkVersion: Option<CheckVersion>

    /** The constructor runs `update`. */
    constructor (configured: bool, cargoOutput: Option<string>)
      ensures runLinterOnSave == configured
      ensures checkVersion == DetermineCheckTypeAsWritten(cargoOutput)
    {
      runLinterOnSave := configured;
      checkVersion := DetermineCheckTypeAsWritten(cargoOutput);
    }

    /** `update`: the setting and the capabilities are read again. */
    method Update(configured: bool, cargoOutput: Option<string>)
      modifies this
      ensures runLinterOnSave == configured
      ensures checkVersion == DetermineCheckTypeAsWritten(cargoOutput)
    {
      UpdateSettings(configured);
      UpdateCapabilities(cargoOutput);
    }

    /** `updateSettings`. */
    method UpdateSettings(configured: bool)
      modifies this
      ensures runLinterOnSave == configured && checkVersion == old(checkVersion)
    {
      runLinterOnSave := configured;
    }

    /** `updateCapabilities`. */
    method UpdateCapabilities(cargoOutput: Option<string>)
      modifies this
      ensures checkVersion == DetermineCheckTypeAsWritten(cargoOutput) && runLinterOnSave == old(runLinterOnSave)
    {
      checkVersion := DetermineCheckTypeAsWritten(cargoOutput);
    }

    /** `toString`. */
    function ToString(): string
      reads this
    {
      ProfileText(runLinterOnSave, checkVersion)
    }
  }
}
