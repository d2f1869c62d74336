# cf-env in Dafny

A model of `cf-env`, a Rust library that gives typed access to the environment
variables of a Cloud Foundry application. It reads instance networking values,
paths, the memory limit, the application metadata (`VCAP_APPLICATION`) and the
bound services (`VCAP_SERVICES`). For each variable it reports whether the value
is missing (`EnvNotSet`) or present but malformed (`EnvMalformed`, or
`JsonMalformed` for the JSON variables).

Modules, one per source file plus two helpers:

- `Enums` (`enums.dfy`, from `src/enums.rs`) holds three things:
  - the six-variant `Error` and `Result<T>`;
  - the `Display` rendering, with `{:?}` quoting written out as `Quote`;
  - `ByteUnit` and `ByteUnitFromString`.
- `Models` (`models.dfy`, from `src/models.rs`) holds `MemoryLimit` and
  `MemoryLimitFromString`, and the record types `ApplicationLimits`,
  `Application`, `ServiceVolumeMount` and `Service<C>`. `Json` stands in for
  `serde_json::Value`.
- `CfEnv` (`lib.dfy`, from `src/lib.rs`) holds every accessor and the service
  lookups.
  - The process environment is an injected `Env = map<string, string>`.
  - `GetServiceByName` is a method with the source's nested loops. Buckets are
    visited in an unspecified order, chosen with `:|`. Its result is specified
    relationally by `ByNameOutcome`.
- `UnsignedInt` (`unsigned.dfy`) holds Rust's `str::parse` for `u16` and `u128`:
  - an optional `+`, then one or more decimal digits, whose value must fit the
    width;
  - `Parse` is checked against an independent grammar (`IsLiteral`, `Value`);
  - `ToDecimal` writes a number back out, for the round-trip lemmas.
- `Wrappers` (`wrappers.dfy`) holds `Option`.

The following are parameters of the accessors:

- socket-address, IP, GUID, URI and locale parsing: partial functions
  `string -> Option<_>`;
- the serde decoding of `VCAP_APPLICATION` and `VCAP_SERVICES`;
- the "re-encode, then decode as `Service<T>`" step (`retype`). Its list form,
  `RetypeAll`, succeeds exactly when every element re-types, as decoding a
  `Vec` does.

The names of the environment variables are taken literally (`"PORT"`,
`"VCAP_SERVICES"`, …). `src/constants.rs`, which defines them, is not part of
this model.

Notes on the code itself:

- `get_lang` calls the locale parser with no fault isolation around it (src/lib.rs:133-144).
- The reason `MemoryLimit::from_string` gives for a bad size is the code's `"Ins't a valid u128"` (src/models.rs:21).
- `src/models.rs:13` writes `Error<'static>`, but the `Error` declared in
  `src/enums.rs:5` has no lifetime. The owned-string `Error` is modelled.

## Model

| member | source | states |
|---|---|---|
| `UnsignedInt.Parse` | src/lib.rs:57 | Parsing succeeds exactly when the string is an optional `+` followed by one or more digits whose value is below the width's limit, and the result is that value |
| `UnsignedInt.Accumulate` | src/models.rs:17 | The left-to-right digit reading that fails as soon as the running value overflows agrees with the positional value of the whole digit string |
| `UnsignedInt.ToDecimal` | src/lib.rs:381-388 | The decimal rendering of `n` is a non-empty digit string whose value is `n` |
| `UnsignedInt.ParseDecimal` | src/lib.rs:57 | Round trip: parsing the decimal rendering of `n` gives `n` exactly when `n` fits the width, and fails otherwise |
| `UnsignedInt.ParsePlusDecimal` | src/lib.rs:57 | A single leading `+` is accepted and does not change the value |
| `UnsignedInt.ParseRejectsMinus` | src/lib.rs:390-396 | A leading `-` is rejected whatever follows it |
| `Enums.Display` | src/enums.rs:14-45 | A message is exactly `"memory unit unknown"` iff the error is `UnknownMemoryUnit` |
| `Enums.QuotePlain` | src/enums.rs:17-21 | A string of printable ASCII characters other than `"` and `\` is quoted as itself between double quotes, as `{:?}` does |
| `Enums.DisplayPlain` | src/enums.rs:75-136 | With plain payloads, each variant renders as its documented message, e.g. `EnvMalformed(v, "none")` ends in `"none"` in quotes |
| `Enums.DisplayInjective` | src/enums.rs:16-43 | Two errors with the same message are equal: each message determines its variant and its payloads |
| `Enums.EscapedThenQuote` | src/enums.rs:37-41 | The closing quote of a `{:?}` rendering is the first unescaped quote, so the text after it cannot change which payload was quoted |
| `Enums.ByteUnitFromString` | src/enums.rs:54-62 | Last character `M`/`m` gives exactly `Megabyte`, and `G`/`g` gives exactly `Gigabyte`. Any other last character gives `UnknownMemoryUnit`. A non-empty input is required |
| `Enums.ByteUnitIgnoresPrefix` | src/enums.rs:55-60 | Only the last character is inspected: any two prefixes give the same unit |
| `Enums.ByteUnitOfSuffix` | src/enums.rs:58-73 | Both cases of a unit letter select that unit after any prefix (e.g. `"2G"` gives `Gigabyte`) |
| `Models.MemoryLimitFromString` | src/models.rs:13-27 | `UnknownMemoryUnit` iff the last character is not a unit letter. `Ok` iff the unit is known and the rest is a `u128` literal; the unit is then the one `ByteUnitFromString` reads and the size is the literal's value. Otherwise `EnvMalformed(env_variable, "Ins't a valid u128")` |
| `Models.MemoryLimitOfDecimal` | src/models.rs:16-18 | The digits of any `N < 2^128` followed by a unit letter parse to `Ok` with that unit and size `N` |
| `Models.MemoryLimitOverflow` | src/models.rs:17-22 | A size of `2^128` or more is `EnvMalformed` naming the caller's variable, not `UnknownMemoryUnit` |
| `Models.MemoryLimitNegative` | src/models.rs:17-22 | A negative size such as `-512M` is `EnvMalformed` naming the caller's variable |
| `Models.MemoryLimitSingleUnit` | src/models.rs:16-17 | Exactly one trailing character is removed, so `512MM` and a lone `M` are `EnvMalformed` |
| `Models.MemoryLimitUnknownUnit` | src/models.rs:14-25 | An unrecognised last character gives `UnknownMemoryUnit` whatever precedes it |
| `CfEnv.Read` | src/lib.rs:41-52 | The shared classification: the value is absent and gives `EnvNotSet`, or the parser rejects it and gives `EnvMalformed` with the fixed reason, or the result is the parsed value |
| `CfEnv.ClassifiedIsFunctional` | src/lib.rs:27-38 | The classification leaves exactly one possible result for each environment |
| `CfEnv.GetInstanceAddress` | src/lib.rs:27-38 | `CF_INSTANCE_ADDR` follows the classification, with the socket-address parser and reason "Doesn't match the format of addr:ip" |
| `CfEnv.GetInstanceGuid` | src/lib.rs:41-52 | `CF_INSTANCE_GUID` follows the classification, with the GUID parser and reason "Isn't a valid guid" |
| `CfEnv.GetInstanceIp` | src/lib.rs:69-80 | `CF_INSTANCE_IP` follows the classification, with the IP parser |
| `CfEnv.GetInstanceInternalIp` | src/lib.rs:83-94 | `CF_INSTANCE_INTERNAL_IP` follows the classification, with the IP parser |
| `CfEnv.GetDatabaseUrl` | src/lib.rs:111-122 | `DATABASE_URL` follows the classification, with the URI parser |
| `CfEnv.GetLang` | src/lib.rs:133-144 | `LANG` follows the classification, with the locale parser |
| `CfEnv.GetInstanceIndex` | src/lib.rs:55-66 | `Ok` iff `CF_INSTANCE_INDEX` is set to an unsigned literal below `2^128`, with that value. Otherwise `EnvMalformed(CF_INSTANCE_INDEX, …)` when set, or `EnvNotSet` when absent |
| `CfEnv.InstanceIndexExamples` | src/lib.rs:381-404 | `"8"` gives `Ok(8)`; `"-1"` and `"hello"` give `EnvMalformed(CF_INSTANCE_INDEX, …)` |
| `CfEnv.GetInstancePort` | src/lib.rs:97-108 | `Ok(n)` iff `CF_INSTANCE_PORT` is an unsigned literal of value `n` ≤ 65535. Otherwise `EnvMalformed` naming it, or `EnvNotSet` |
| `CfEnv.GetPort` | src/lib.rs:163-174 | `Ok(n)` iff `PORT` is an unsigned literal of value `n` ≤ 65535. Otherwise `EnvMalformed` naming it, or `EnvNotSet` |
| `CfEnv.PortOfDecimal` | src/lib.rs:163-174 | A port written in decimal is read back iff it is below 65536, and is `EnvMalformed` otherwise |
| `CfEnv.GetMemoryLimitAsWritten` | src/lib.rs:147-160 | The source's accessor panics iff `MEMORY_LIMIT` is set to the empty string. For a non-empty value it returns `Ok` iff `MemoryLimitFromString` accepts it, with that result; every failure, the unknown unit included, becomes `EnvMalformed(MEMORY_LIMIT, "Ins't a valid memory size …")` |
| `CfEnv.EmptyMemoryLimitPanics` | src/enums.rs:55 | Counterexample: an empty `MEMORY_LIMIT` makes the source panic instead of reporting an error |
| `CfEnv.GetMemoryLimit` | src/lib.rs:147-160 | The corrected accessor: `Ok` iff the value is non-empty and `MemoryLimitFromString` accepts it, with its result. Every other present value is `EnvMalformed(MEMORY_LIMIT, …)`; an absent one is `EnvNotSet` |
| `CfEnv.MemoryLimitCorrectionAgrees` | src/lib.rs:147-160 | Wherever the source returns, the corrected accessor gives the same result; where it panics, the corrected one reports `EnvMalformed` |
| `CfEnv.MemoryLimitAccepted` | src/lib.rs:147-160 | `MEMORY_LIMIT` is accepted iff it is a `u128` literal followed by exactly one unit letter; the result is never `UnknownMemoryUnit` |
| `CfEnv.MemoryLimitOfDecimalEnv` | src/lib.rs:147-160 | `MEMORY_LIMIT` set to the digits of `N < 2^128` plus a unit letter gives that size and unit |
| `CfEnv.GetHome` | src/lib.rs:125-130 | `Ok` iff `HOME` is set, and then holds the raw value as a path; the only error is `EnvNotSet(HOME)` |
| `CfEnv.GetPwd` | src/lib.rs:177-182 | `Ok` iff `PWD` is set, and then holds the raw value as a path; the only error is `EnvNotSet(PWD)` |
| `CfEnv.GetTmpDir` | src/lib.rs:185-190 | `Ok` iff `TMPDIR` is set, and then holds the raw value as a path; the only error is `EnvNotSet(TMPDIR)` |
| `CfEnv.GetUser` | src/lib.rs:193-198 | `Ok` iff `USER` is set, and then holds the raw value; the only error is `EnvNotSet(USER)` |
| `CfEnv.GetApplicationInfo` | src/lib.rs:323-331 | `VCAP_APPLICATION` is absent and gives `EnvNotSet`, or fails to decode and gives `JsonMalformed("VCAP_APPLICATION")`, or gives the decoded value. Never `EnvMalformed` |
| `CfEnv.GetServices` | src/lib.rs:203-211 | `VCAP_SERVICES` is absent and gives `EnvNotSet`, or fails to decode and gives `JsonMalformed("VCAP_SERVICES")`, or gives the decoded map. Never `EnvMalformed` |
| `CfEnv.Retyped` | src/lib.rs:252-261 | Re-typing one binding gives `Ok` iff the retype succeeds, with its value; a failure is `JsonMalformed(<service name>.credentials)` |
| `CfEnv.GetServiceByName` | src/lib.rs:243-269 | A `GetServices` error passes through unchanged. Otherwise the result is `ServiceNotPresent(name)` iff no binding in any bucket has that name. Else it is the re-typed form of the first binding with that name in some bucket (`ByNameOutcome`); a failed re-typing stops the search |
| `CfEnv.ByNameErrors` | src/lib.rs:247-266 | Once `VCAP_SERVICES` is decoded, a lookup by name fails only with `ServiceNotPresent(name)` or `JsonMalformed(name + ".credentials")`. An `Ok` result is the re-typing of a stored binding with that name |
| `CfEnv.ByNameUnique` | src/lib.rs:249-264 | When exactly one binding carries the name, the lookup's result is that binding re-typed, whatever the bucket order |
| `CfEnv.ByNameUntyped` | src/lib.rs:233-241 | With untyped credentials (`Service<Value>`), a present name always yields `Ok` of a binding with that name |
| `CfEnv.RetypeAll` | src/lib.rs:308-309 | Decoding a list of bindings succeeds iff every element re-types, and then yields the element-wise results in order |
| `CfEnv.GetServicesByType` | src/lib.rs:301-320 | A `GetServices` error passes through, and a missing type gives `ServiceTypeNotPresent(type)`. For a present type, the result is `Ok` iff every binding re-types, giving the re-typed list in order; otherwise `JsonMalformed("<type>.credentials")` |
| `CfEnv.ByTypeEmptyBucket` | src/lib.rs:307-316 | A present type with no bindings gives `Ok([])`, not `ServiceTypeNotPresent` |

## Left out

- Reading the process environment (`std::env::var`) is replaced by an explicit map. A value that is not valid Unicode, which the source also reports as `EnvNotSet`, is an absent key.
- The socket-address, IP, GUID, URI and locale parsers and serde's JSON grammar belong to other libraries. They are function parameters, and their own behaviour is not modelled; the address and GUID tests at src/lib.rs:335-379 exercise those libraries.
- `Quote` escapes `"`, `\`, newline, carriage return, tab and NUL as Rust's `{:?}` does. It leaves other control characters, DEL, other non-printable characters and grapheme-extending marks (such as U+0301) unescaped, where Rust writes `\u{…}`. The lemmas about plain strings (`QuotePlain`, `DisplayPlain`) are stated for printable ASCII only, where the two agree.
- `ByteUnitFromString` and `MemoryLimitFromString` require a non-empty input, because the source panics on an empty one (the `unwrap` at src/enums.rs:55).
- Bucket iteration order of the `HashMap` in `get_service_by_name` is unspecified. When a name occurs in several buckets, the model leaves open which bucket's first such binding is returned. Within a bucket, the first binding with the name is always the one used.
- The re-encoding `serde_json::to_string(...).unwrap()` is taken to be total. `retype` is a free function, so the model does not claim that re-typing preserves a binding's envelope fields.
- Field values of `Application` and `ServiceVolumeMount` carry no behaviour. They are plain records, and a GUID is a 128-bit number.
- The test helpers that set process variables (`set_var`) are replaced by map updates in the example lemmas.

## Findings

| source | as written | input that shows it | evidently intended | confidence | as-written member | corrected member |
|---|---|---|---|---|---|---|
| src/lib.rs:147-160 | `get_memory_limit` passes the value to `MemoryLimit::from_string`. That calls `ByteUnit::from_string`, which unwraps the last character and panics on an empty string | `MEMORY_LIMIT` set to `""` | report `EnvMalformed(MEMORY_LIMIT, …)` like every other malformed value; no accessor panics | medium, not executed | `CfEnv.GetMemoryLimitAsWritten`, `CfEnv.EmptyMemoryLimitPanics` | `CfEnv.GetMemoryLimit`, `CfEnv.MemoryLimitCorrectionAgrees` |
