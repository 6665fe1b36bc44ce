/**
 * Version metadata of the BigQuery unified client library.
 *
 * The build supplies four configuration values (major, minor and patch
 * numbers and a pre-release label). From them the library derives a single
 * comparable integer, guarded by two compile-time assertions, and the name
 * of the inline namespace that every public symbol lives in.
 */
module VersionInfo {
  import Decimal

  /** Ceilings of the minor and patch numbers in the integer encoding. */
  const MaxMinorVersions: nat := 100
  const MaxPatchVersions: nat := 100

  /**
   * The build-time configuration. Its fields are what `version_major()`,
   * `version_minor()`, `version_patch()` and `version_pre_release()` return.
   */
  datatype Config = Config(major: nat, minor: nat, patch: nat, preRelease: string)

  /** The two compile-time assertions guarding `version()`. */
  datatype StaticAssert = MinorBound | PatchBound

  datatype Result<T, E> = Ok(value: T) | Err(error: E)

  function Message(a: StaticAssert): string {
    match a
    case MinorBound => "version_minor() should be < kMaxMinorVersions"
    case PatchBound => "version_patch() should be < kMaxPatchVersions"
  }

  /** Whether an assertion holds of a configuration. */
  predicate Holds(a: StaticAssert, c: Config) {
    match a
    case MinorBound => c.minor < MaxMinorVersions
    case PatchBound => c.patch < MaxPatchVersions
  }

  /** A configuration that passes both assertions. */
  predicate Valid(c: Config) {
    Holds(MinorBound, c) && Holds(PatchBound, c)
  }

  // ---------------------------------------------------------------------
  // Integer encoding

  /**
   * The single integer standing for major/minor/patch. Under the bounds,
   * each component can be read back from it by division and remainder.
   */
  function Version(major: nat, minor: nat, patch: nat): (v: nat)
    requires minor < MaxMinorVersions && patch < MaxPatchVersions
    ensures v % MaxPatchVersions == patch
    ensures (v / MaxPatchVersions) % MaxMinorVersions == minor
    ensures v / (MaxPatchVersions * MaxMinorVersions) == major
  {
    MaxPatchVersions * (MaxMinorVersions * major + minor) + patch
  }

  /** Splits an encoded integer into its major, minor and patch numbers. */
  function Decode(v: nat): (t: (nat, nat, nat))
    ensures t.1 < MaxMinorVersions && t.2 < MaxPatchVersions
    ensures Version(t.0, t.1, t.2) == v
  {
    (v / (MaxPatchVersions * MaxMinorVersions), (v / MaxPatchVersions) % MaxMinorVersions, v % MaxPatchVersions)
  }

  /**
   * `version()` of a configuration: the encoded integer when both
   * assertions hold, otherwise the assertions that fail, in source order.
   * A failing configuration yields no integer at all.
   */
  function BuildVersion(c: Config): (r: Result<nat, seq<StaticAssert>>)
    ensures r.Ok? <==> Valid(c)
    ensures r.Ok? ==> Decode(r.value) == (c.major, c.minor, c.patch)
    ensures r.Err? ==> forall a :: a in r.error <==> !Holds(a, c)
    ensures r.Err? ==> |r.error| <= 2 && (|r.error| == 2 ==> r.error == [MinorBound, PatchBound])
  {
    var failed := (if Holds(MinorBound, c) then [] else [MinorBound])
                + (if Holds(PatchBound, c) then [] else [PatchBound]);
    if failed == [] then Ok(Version(c.major, c.minor, c.patch)) else Err(failed)
  }

  /**
   * The diagnostics a build of `version()` prints: one message per failing
   * assertion, none when the configuration is valid.
   */
  function Diagnostics(c: Config): (d: seq<string>)
    ensures d == [] <==> Valid(c)
    ensures forall a :: Message(a) in d <==> !Holds(a, c)
  {
    match BuildVersion(c)
    case Ok(_) => []
    case Err(failed) =>
      var d := seq(|failed|, i requires 0 <= i < |failed| => Message(failed[i]));
      assert Message(MinorBound)[8] != Message(PatchBound)[8];
      assert forall a :: Message(a) in d <==> a in failed by {
        forall a ensures Message(a) in d <==> a in failed {
          if a in failed {
            var i :| 0 <= i < |failed| && failed[i] == a;
            assert d[i] == Message(a);
          }
        }
      }
      d
  }

  /** Encoding then decoding gives back the triple. */
  lemma DecodeVersion(major: nat, minor: nat, patch: nat)
    requires minor < MaxMinorVersions && patch < MaxPatchVersions
    ensures Decode(Version(major, minor, patch)) == (major, minor, patch)
  {
  }

  /** Within the bounds, equal integers mean equal triples. */
  lemma VersionInjective(a: Config, b: Config)
    requires Valid(a) && Valid(b)
    ensures Version(a.major, a.minor, a.patch) == Version(b.major, b.minor, b.patch)
            <==> (a.major, a.minor, a.patch) == (b.major, b.minor, b.patch)
  {
  }

  /**
   * Precedence of the numeric part of a semantic version (item 11 of
   * Semantic Versioning 2.0.0): major, then minor, then patch, numerically.
   */
  predicate NumericPrecedes(a: Config, b: Config) {
    || a.major < b.major
    || (a.major == b.major && a.minor < b.minor)
    || (a.major == b.major && a.minor == b.minor && a.patch < b.patch)
  }

  /** Comparing encoded integers is comparing numeric precedence. */
  lemma VersionOrderMatchesPrecedence(a: Config, b: Config)
    requires Valid(a) && Valid(b)
    ensures NumericPrecedes(a, b) <==> Version(a.major, a.minor, a.patch) < Version(b.major, b.minor, b.patch)
  {
  }

  /** The pre-release label never reaches the integer. */
  lemma VersionIgnoresPreRelease(a: Config, b: Config)
    requires (a.major, a.minor, a.patch) == (b.major, b.minor, b.patch)
    ensures BuildVersion(a) == BuildVersion(b)
  {
  }

  /**
   * Item 11 of Semantic Versioning 2.0.0 ranks a pre-release below the
   * release with the same numbers; the integer does not tell them apart.
   */
  predicate PreReleaseBeforeRelease(a: Config, b: Config) {
    (a.major, a.minor, a.patch) == (b.major, b.minor, b.patch) && a.preRelease != "" && b.preRelease == ""
  }

  /**
   * Precedence of Semantic Versioning 2.0.0 as far as item 11.2 (numeric
   * comparison) and item 11.3 (a pre-release ranks below its release) go;
   * the comparison of two pre-release labels (item 11.4) is not modelled.
   */
  predicate Precedes(a: Config, b: Config) {
    NumericPrecedes(a, b) || PreReleaseBeforeRelease(a, b)
  }

  /**
   * The integer order agrees with precedence except that a pre-release and
   * its release encode alike: a smaller integer means an earlier version,
   * an earlier version never has a larger integer, and a pre-release ties
   * with its release although it precedes it.
   */
  lemma IntegerOrderVsPrecedence(a: Config, b: Config)
    requires Valid(a) && Valid(b)
    ensures Version(a.major, a.minor, a.patch) < Version(b.major, b.minor, b.patch) ==> Precedes(a, b)
    ensures Precedes(a, b) ==> Version(a.major, a.minor, a.patch) <= Version(b.major, b.minor, b.patch)
    ensures PreReleaseBeforeRelease(a, b)
            ==> Precedes(a, b) && Version(a.major, a.minor, a.patch) == Version(b.major, b.minor, b.patch)
  {
    VersionOrderMatchesPrecedence(a, b);
  }

  /** Worked configurations, ones the assertions reject, and a namespace name. */
  lemma Examples()
    ensures BuildVersion(Config(2, 37, 0, "")) == Ok(23700)
    ensures BuildVersion(Config(1, 5, 12, "rc1")) == Ok(10512) == BuildVersion(Config(1, 5, 12, ""))
    ensures BuildVersion(Config(1, 100, 0, "")) == Err([MinorBound])
    ensures BuildVersion(Config(1, 100, 100, "")) == Err([MinorBound, PatchBound])
    ensures NsName(2, 37, 0) == "v2_37"
  {
    assert [MinorBound] + [] == [MinorBound];
    assert [MinorBound] + [PatchBound] == [MinorBound, PatchBound];
    assert Decimal.ToString(2) == "2";
    assert Decimal.ToString(37) == "37";
  }

  // ---------------------------------------------------------------------
  // Versioned inline namespace

  predicate IsIdentifierChar(c: char) {
    ('a' <= c <= 'z') || ('A' <= c <= 'Z') || Decimal.IsDigit(c) || c == '_'
  }

  /** A C++ identifier: non-empty, not starting with a digit. */
  predicate IsIdentifier(s: string) {
    |s| > 0 && !Decimal.IsDigit(s[0]) && forall i :: 0 <= i < |s| ==> IsIdentifierChar(s[i])
  }

  /**
   * The token `VCONCAT(Ma, Mi, Pa)` pastes together: "v", the major
   * numeral, "_", the minor numeral. The patch argument is accepted and
   * dropped.
   */
  function NsName(major: nat, minor: nat, patch: nat): (s: string)
    ensures IsIdentifier(s)
  {
    "v" + Decimal.ToString(major) + "_" + Decimal.ToString(minor)
  }

  /** The name of the inline namespace for a configuration (`NS` via `VEVAL`). */
  function Namespace(c: Config): (s: string)
    ensures s == NsName(c.major, c.minor, 0)
  {
    NsName(c.major, c.minor, c.patch)
  }

  /** Patch releases share the namespace. */
  lemma NsNameIgnoresPatch(major: nat, minor: nat, p: nat, q: nat)
    ensures NsName(major, minor, p) == NsName(major, minor, q)
  {
  }

  /** The namespace name determines major and minor. */
  lemma {:induction false} NsNameInjective(ma1: nat, mi1: nat, pa1: nat, ma2: nat, mi2: nat, pa2: nat)
    ensures NsName(ma1, mi1, pa1) == NsName(ma2, mi2, pa2) <==> ma1 == ma2 && mi1 == mi2
  {
    if NsName(ma1, mi1, pa1) == NsName(ma2, mi2, pa2) {
      var s := NsName(ma1, mi1, pa1);
      var a, b := Decimal.ToString(ma1), Decimal.ToString(mi1);
      var c, d := Decimal.ToString(ma2), Decimal.ToString(mi2);
      assert s == "v" + a + "_" + b == "v" + c + "_" + d;
      // The first '_' after the leading 'v' ends the major numeral.
      assert forall i :: 1 <= i <= |a| ==> s[i] == a[i - 1] != '_';
      assert forall i :: 1 <= i <= |c| ==> s[i] == c[i - 1] != '_';
      assert s[|a| + 1] == '_' == s[|c| + 1];
      assert a == s[1..|a| + 1] == c;
      assert b == s[|a| + 2..] == d;
      Decimal.ToStringInjective(ma1, ma2);
      Decimal.ToStringInjective(mi1, mi2);
    }
  }

  /**
   * Two configurations share an inline namespace exactly when they differ
   * at most in patch number and pre-release label; otherwise their symbols
   * are distinct.
   */
  lemma NamespacesCollideOnlyWithinMinor(a: Config, b: Config)
    ensures Namespace(a) == Namespace(b) <==> a.major == b.major && a.minor == b.minor
  {
    NsNameInjective(a.major, a.minor, a.patch, b.major, b.minor, b.patch);
  }

  /**
   * For valid configurations, sharing a namespace is the same as having
   * encoded integers that agree once the patch digits are dropped.
   */
  lemma NamespaceIsVersionWithoutPatch(a: Config, b: Config)
    requires Valid(a) && Valid(b)
    ensures Namespace(a) == Namespace(b)
            <==> Version(a.major, a.minor, a.patch) / MaxPatchVersions == Version(b.major, b.minor, b.patch) / MaxPatchVersions
  {
    NamespacesCollideOnlyWithinMinor(a, b);
  }
}
