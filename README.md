# Version metadata of the BigQuery unified C++ client

A Dafny model of `google/cloud/bigquery_unified/version.h`: the library's
version numbers, the single integer that encodes them, the two compile-time
assertions that keep that encoding collision-free, and the name of the
versioned inline namespace every public symbol is declared in.

- `decimal.dfy` (module `Decimal`): the decimal numerals the preprocessor
  pastes into the namespace name, with the inverse reading and injectivity.
- `version.dfy` (module `VersionInfo`): the build configuration as a
  `Config` value (its fields are `version_major()`, `version_minor()`,
  `version_patch()` and `version_pre_release()`), the constants
  `kMaxMinorVersions` and `kMaxPatchVersions` (both 100), `version()` as
  `Version` and, with its two `static_assert`s, as `BuildVersion`, and the
  `VCONCAT`/`VEVAL`/`NS` macros as `NsName` and `Namespace`.

Everything this model covers is a constant expression, so the whole model
is pure functions and lemmas. A configuration that fails an assertion does not
compile in C++; in the model `BuildVersion` returns `Err` with the failing
assertions instead of a number, `Diagnostics` lists their messages, and
`Version` itself requires the bounds.

Properties proved: decoding by `% 100`, `/ 100 % 100` and `/ 10000` gives
back the triple and every integer decodes to a valid triple; the encoding is
injective and orders versions exactly like the numeric part of precedence
in item 11 of Semantic Versioning 2.0.0; the pre-release label never reaches
the integer, so the integer order agrees with precedence except that a
pre-release and its release (which item 11.3 ranks lower) encode alike; the namespace name is a C++
identifier, ignores the patch number, and is equal for two configurations
exactly when their major and minor numbers agree.

## Model

| member | source | states |
|---|---|---|
| `Decimal.ToString` | google/cloud/bigquery_unified/version.h:23 | the numeral pasted for a version number is non-empty, all digits, and starts with '0' only for zero |
| `Decimal.ValueOfToString` | google/cloud/bigquery_unified/version.h:23 | reading the numeral back gives the number |
| `Decimal.ToStringInjective` | google/cloud/bigquery_unified/version.h:23 | two numbers have the same numeral iff they are equal |
| `VersionInfo.Version` | google/cloud/bigquery_unified/version.h:105-109 | with minor and patch below 100, `v % 100` is patch, `v / 100 % 100` is minor and `v / 10000` is major |
| `VersionInfo.Decode` | google/cloud/bigquery_unified/version.h:97-109 | every integer splits into a triple within the bounds that encodes back to it |
| `VersionInfo.BuildVersion` | google/cloud/bigquery_unified/version.h:98-110 | an integer is produced iff minor < 100 and patch < 100, and it decodes to the configured triple; otherwise the result lists exactly the failing assertions |
| `VersionInfo.Diagnostics` | google/cloud/bigquery_unified/version.h:99-104 | no diagnostic iff the configuration is valid; the message of each assertion appears iff that assertion fails |
| `VersionInfo.DecodeVersion` | google/cloud/bigquery_unified/version.h:97-109 | decoding an encoded triple gives the triple back |
| `VersionInfo.VersionInjective` | google/cloud/bigquery_unified/version.h:97-109 | for valid configurations, equal integers iff equal (major, minor, patch) |
| `VersionInfo.VersionOrderMatchesPrecedence` | google/cloud/bigquery_unified/version.h:99-109 | for valid configurations, lexicographic precedence on (major, minor, patch) iff the integers compare `<` |
| `VersionInfo.VersionIgnoresPreRelease` | google/cloud/bigquery_unified/version.h:93-109 | configurations differing only in pre-release label give the same result |
| `VersionInfo.IntegerOrderVsPrecedence` | google/cloud/bigquery_unified/version.h:88-109 | for valid configurations, a smaller integer implies semantic-version precedence (items 11.2 and 11.3), precedence implies a no-larger integer, and a pre-release precedes its release while both encode to the same integer |
| `VersionInfo.Examples` | google/cloud/bigquery_unified/version.h:23-109 | 2.37.0 encodes to 23700, 1.5.12-rc1 and 1.5.12 both to 10512; minor 100 fails the minor assertion, minor and patch 100 fail both (in source order); the namespace of 2.37.0 is spelled `v2_37` |
| `VersionInfo.NsName` | google/cloud/bigquery_unified/version.h:23 | the pasted namespace name is a valid C++ identifier |
| `VersionInfo.Namespace` | google/cloud/bigquery_unified/version.h:26-29 | a configuration's namespace is NsName of its major and minor numbers, whatever its patch number |
| `VersionInfo.NsNameIgnoresPatch` | google/cloud/bigquery_unified/version.h:23-29 | the name is the same for every patch number |
| `VersionInfo.NsNameInjective` | google/cloud/bigquery_unified/version.h:23 | two names are equal iff their major and minor numbers are |
| `VersionInfo.NamespacesCollideOnlyWithinMinor` | google/cloud/bigquery_unified/version.h:38-46 | two configurations share an inline namespace iff they agree on major and minor, so releases of different minor versions never share symbols |
| `VersionInfo.NamespaceIsVersionWithoutPatch` | google/cloud/bigquery_unified/version.h:23-29 | for valid configurations, same namespace iff the encoded integers agree after dropping the patch digits |

## Left out

- `version_string()`: only its declaration is in the header; its body and the `+gitrev` build metadata are defined elsewhere and are not part of this model.
- `internal/version_info.h`, `internal/attributes.h` and `internal/port_platform.h`: they only supply the macro values, which the model takes as the fields of `Config`.
- The C++ linkage of `inline namespace` (unqualified names resolving to the versioned one) and the macro-expansion order of `VEVAL`: only the resulting name is modelled.
- `VersionInfo.Version`: numbers are unbounded naturals; overflow of the C++ `int` result for very large major numbers is not modelled, and the header does not address it.
- The numerals pasted into the namespace name are assumed to be written in plain decimal in the configuration header, which is not part of this model.
- `VersionInfo.BuildVersion`: reports every failing assertion in source order, as a compiler evaluating both `static_assert`s would; how a compiler formats the diagnostic around the message is not modelled.
- Precedence between two pre-release labels (item 11.4 of Semantic Versioning 2.0.0) is not modelled, since the header never compares labels.
