/**
 * The typed values the accessors produce: the memory limit parsed from
 * `MEMORY_LIMIT`, the application metadata of `VCAP_APPLICATION` and the
 * service bindings of `VCAP_SERVICES`.
 */
module Models {
  import opened Wrappers
  import opened UnsignedInt
  import opened Enums

  datatype MemoryLimit = MemoryLimit(unit: ByteUnit, size: U128)

  const INVALID_SIZE := "Ins't a valid u128"

  /**
   * Takes the unit from the last character, drops exactly that one character
   * and parses what is left as a `u128`. An unknown unit is reported as
   * `UnknownMemoryUnit`; a remainder that is not a `u128` is reported as
   * malformed under the caller's variable name. Like `ByteUnitFromString`,
   * the source panics on an empty input.
   */
  function MemoryLimitFromString(input: string, envVariable: string): (r: Result<MemoryLimit>)
    requires |input| > 0
    ensures r == Err(UnknownMemoryUnit) <==> !IsUnitChar(input[|input| - 1])
    ensures r.Ok? <==>
      IsUnitChar(input[|input| - 1])
      && IsLiteral(input[..|input| - 1])
      && Value(Magnitude(input[..|input| - 1])) < U128_LIMIT
    ensures r.Ok? ==>
      Ok(r.value.unit) == ByteUnitFromString(input)
      && r.value.size == Value(Magnitude(input[..|input| - 1]))
    ensures r.Err? && IsUnitChar(input[|input| - 1]) ==>
      r.error == EnvMalformed(envVariable, INVALID_SIZE)
  {
    match ByteUnitFromString(input)
    case Ok(unit) =>
      var rest := input[..|input| - 1];
      (match Parse(rest, U128_LIMIT)
       case Some(size) => Ok(MemoryLimit(unit, size))
       case None => Err(EnvMalformed(envVariable, INVALID_SIZE)))
    case Err(_) =>
      Err(UnknownMemoryUnit)
  }

  /** The unit a unit letter stands for. */
  function UnitOf(c: char): ByteUnit
    requires IsUnitChar(c)
  {
    if c == 'M' || c == 'm' then Megabyte else Gigabyte
  }

  /** The decimal digits of any `u128` followed by a unit letter parse to exactly that size and unit. */
  lemma MemoryLimitOfDecimal(n: U128, c: char, envVariable: string)
    requires IsUnitChar(c)
    ensures MemoryLimitFromString(ToDecimal(n) + [c], envVariable) == Ok(MemoryLimit(UnitOf(c), n))
  {
    var input := ToDecimal(n) + [c];
    assert input[..|input| - 1] == ToDecimal(n);
    assert Magnitude(ToDecimal(n)) == ToDecimal(n);
  }

  /** A size one past the `u128` range is malformed, not an unknown unit. */
  lemma MemoryLimitOverflow(n: nat, c: char, envVariable: string)
    requires n >= U128_LIMIT && IsUnitChar(c)
    ensures MemoryLimitFromString(ToDecimal(n) + [c], envVariable)
         == Err(EnvMalformed(envVariable, INVALID_SIZE))
  {
    var input := ToDecimal(n) + [c];
    assert input[..|input| - 1] == ToDecimal(n);
    assert Magnitude(ToDecimal(n)) == ToDecimal(n);
  }

  /** A negative size such as `-512M` is malformed under the caller's variable. */
  lemma MemoryLimitNegative(digits: string, c: char, envVariable: string)
    requires IsUnitChar(c)
    ensures MemoryLimitFromString("-" + digits + [c], envVariable)
         == Err(EnvMalformed(envVariable, INVALID_SIZE))
  {
    var input := "-" + digits + [c];
    var rest := input[..|input| - 1];
    assert rest == "-" + digits;
    assert Magnitude(rest)[0] == '-';
  }

  /**
   * Exactly one unit letter is removed: a doubled unit such as `512MM` and a
   * lone unit such as `M` leave a remainder that is not a number.
   */
  lemma MemoryLimitSingleUnit(s: string, c: char, envVariable: string)
    requires IsUnitChar(c)
    requires s == [] || IsUnitChar(s[|s| - 1])
    ensures MemoryLimitFromString(s + [c], envVariable) == Err(EnvMalformed(envVariable, INVALID_SIZE))
  {
    var input := s + [c];
    assert input[..|input| - 1] == s;
    if s != [] {
      var m := Magnitude(s);
      assert |m| > 0 ==> m[|m| - 1] == s[|s| - 1];
    }
  }

  /** The unit letter is read whatever precedes it: an unknown letter is always `UnknownMemoryUnit`. */
  lemma MemoryLimitUnknownUnit(s: string, c: char, envVariable: string)
    requires !IsUnitChar(c)
    ensures MemoryLimitFromString(s + [c], envVariable) == Err(UnknownMemoryUnit)
  {
    assert (s + [c])[|s|] == c;
  }

  datatype ApplicationLimits = ApplicationLimits(disk: U128, fds: U128, mem: U128)

  /** A 128-bit unique identifier; its textual syntax is parsed outside this model. */
  datatype Guid = Guid(bits: U128)

  datatype Application = Application(
    applicationId: Guid,
    applicationName: string,
    applicationUris: seq<string>,
    applicationVersion: Guid,
    cfApi: string,
    limits: ApplicationLimits,
    name: string,
    processId: string,
    processType: string,
    organizationId: Guid,
    organizationName: string,
    spaceId: Guid,
    spaceName: string,
    start: Option<string>,
    startedAt: Option<string>,
    startedAtTimestamp: Option<string>,
    stateTimestamp: Option<string>,
    uris: seq<string>,
    version: Guid)

  datatype ServiceVolumeMount = ServiceVolumeMount(containerDir: string, deviceType: string, mode: string)

  /** An untyped JSON document, the default payload of a service's credentials. */
  datatype Json =
    | Null
    | Bool(b: bool)
    | Number(literal: string)
    | String(s: string)
    | Array(items: seq<Json>)
    | Object(members: seq<(string, Json)>)

  /** A service binding whose credentials have type `C` (untyped `Json` until re-typed). */
  datatype Service<C> = Service(
    bindingGuid: Guid,
    bindingName: Option<string>,
    instanceGuid: Guid,
    instanceName: string,
    name: string,
    serviceLabel: string,  // `label` in the source; a keyword in Dafny
    tags: seq<string>,
    plan: string,
    credentials: C,
    syslogDrainUrl: Option<string>,
    volumeMounts: seq<ServiceVolumeMount>)
}
