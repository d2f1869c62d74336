/**
 * The per-variable accessors of the Cloud Foundry environment and the service
 * directory lookups. The process environment is an injected map from variable
 * name to value; a variable that is missing (or, in the source, not valid
 * Unicode) is a key absent from the map. Parsers that belong to other
 * libraries (socket and IP addresses, GUIDs, URIs, locales, JSON decoding and
 * the credential re-typing of a service) are passed in as partial functions.
 */
module CfEnv {
  import opened Wrappers
  import opened UnsignedInt
  import opened Enums
  import opened Models

  type Env = map<string, string>

  const CF_INSTANCE_ADDR := "CF_INSTANCE_ADDR"
  const CF_INSTANCE_GUID := "CF_INSTANCE_GUID"
  const CF_INSTANCE_INDEX := "CF_INSTANCE_INDEX"
  const CF_INSTANCE_IP := "CF_INSTANCE_IP"
  const CF_INSTANCE_INTERNAL_IP := "CF_INSTANCE_INTERNAL_IP"
  const CF_INSTANCE_PORT := "CF_INSTANCE_PORT"
  const DATABASE_URL := "DATABASE_URL"
  const HOME := "HOME"
  const LANG := "LANG"
  const MEMORY_LIMIT := "MEMORY_LIMIT"
  const PORT := "PORT"
  const PWD := "PWD"
  const TMPDIR := "TMPDIR"
  const USER := "USER"
  const VCAP_SERVICES := "VCAP_SERVICES"
  const VCAP_APPLICATION := "VCAP_APPLICATION"

  const INVALID_U128 := "Ins't a valid positive (u128) number"
  const INVALID_U16 := "Ins't a valid positive (u16) number"
  const INVALID_MEMORY := "Ins't a valid memory size formatted after '<size><unit>'"

  // ---------------------------------------------------------------------------
  // The classification every accessor follows
  // ---------------------------------------------------------------------------

  /**
   * The contract shared by the accessors: a missing variable is `EnvNotSet`,
   * a value the parser rejects is `EnvMalformed` with the accessor's fixed
   * reason, and otherwise the result is the parsed value.
   */
  ghost predicate Classified<T>(env: Env, name: string, parse: string -> Option<T>, reason: string, r: Result<T>) {
    match r
    case Ok(v) => name in env && parse(env[name]) == Some(v)
    case Err(e) =>
      if name in env then parse(env[name]).None? && e == EnvMalformed(name, reason)
      else e == EnvNotSet(name)
  }

  /** As `Classified`, for the JSON-bearing variables, whose decode failure is `JsonMalformed`. */
  ghost predicate ClassifiedJson<T>(env: Env, name: string, decode: string -> Option<T>, r: Result<T>) {
    match r
    case Ok(v) => name in env && decode(env[name]) == Some(v)
    case Err(e) =>
      if name in env then decode(env[name]).None? && e == JsonMalformed(name)
      else e == EnvNotSet(name)
  }

  /** The classification leaves one possible result for each environment. */
  lemma ClassifiedIsFunctional<T>(env: Env, name: string, parse: string -> Option<T>, reason: string,
                                  r1: Result<T>, r2: Result<T>)
    requires Classified(env, name, parse, reason, r1) && Classified(env, name, parse, reason, r2)
    ensures r1 == r2
  {
  }

  function Read<T>(env: Env, name: string, parse: string -> Option<T>, reason: string): (r: Result<T>)
    ensures Classified(env, name, parse, reason, r)
  {
    if name in env then
      match parse(env[name])
      case Some(v) => Ok(v)
      case None => Err(EnvMalformed(name, reason))
    else
      Err(EnvNotSet(name))
  }

  function ReadJson<T>(env: Env, name: string, decode: string -> Option<T>): (r: Result<T>)
    ensures ClassifiedJson(env, name, decode, r)
  {
    if name in env then
      match decode(env[name])
      case Some(v) => Ok(v)
      case None => Err(JsonMalformed(name))
    else
      Err(EnvNotSet(name))
  }

  /** The raw value of a variable that any string satisfies. */
  function ReadRaw(env: Env, name: string): (r: Result<string>)
    ensures r.Ok? <==> name in env
    ensures r.Ok? ==> r.value == env[name]
    ensures r.Err? ==> r.error == EnvNotSet(name)
  {
    if name in env then Ok(env[name]) else Err(EnvNotSet(name))
  }

  // ---------------------------------------------------------------------------
  // Accessors whose parser belongs to another library
  // ---------------------------------------------------------------------------

  function GetInstanceAddress<A>(env: Env, parseSocketAddr: string -> Option<A>): (r: Result<A>)
    ensures Classified(env, CF_INSTANCE_ADDR, parseSocketAddr, "Doesn't match the format of addr:ip", r)
  {
    Read(env, CF_INSTANCE_ADDR, parseSocketAddr, "Doesn't match the format of addr:ip")
  }

  function GetInstanceGuid(env: Env, parseGuid: string -> Option<Guid>): (r: Result<Guid>)
    ensures Classified(env, CF_INSTANCE_GUID, parseGuid, "Isn't a valid guid", r)
  {
    Read(env, CF_INSTANCE_GUID, parseGuid, "Isn't a valid guid")
  }

  function GetInstanceIp<A>(env: Env, parseIp: string -> Option<A>): (r: Result<A>)
    ensures Classified(env, CF_INSTANCE_IP, parseIp, "Ins't a valid ip address", r)
  {
    Read(env, CF_INSTANCE_IP, parseIp, "Ins't a valid ip address")
  }

  function GetInstanceInternalIp<A>(env: Env, parseIp: string -> Option<A>): (r: Result<A>)
    ensures Classified(env, CF_INSTANCE_INTERNAL_IP, parseIp, "Ins't a valid ip address", r)
  {
    Read(env, CF_INSTANCE_INTERNAL_IP, parseIp, "Ins't a valid ip address")
  }

  function GetDatabaseUrl<U>(env: Env, parseUri: string -> Option<U>): (r: Result<U>)
    ensures Classified(env, DATABASE_URL, parseUri, "Ins't a valid uri", r)
  {
    Read(env, DATABASE_URL, parseUri, "Ins't a valid uri")
  }

  function GetLang<L>(env: Env, parseLocale: string -> Option<L>): (r: Result<L>)
    ensures Classified(env, LANG, parseLocale, "Ins't a valid locale", r)
  {
    Read(env, LANG, parseLocale, "Ins't a valid locale")
  }

  // ---------------------------------------------------------------------------
  // Unsigned-integer accessors
  // ---------------------------------------------------------------------------

  function ParseU128(s: string): (r: Option<U128>)
    ensures r.Some? <==> IsLiteral(s) && Value(Magnitude(s)) < U128_LIMIT
    ensures r.Some? ==> r.value == Value(Magnitude(s))
  {
    match Parse(s, U128_LIMIT)
    case Some(n) => Some(n)
    case None => None
  }

  function ParseU16(s: string): (r: Option<U16>)
    ensures r.Some? <==> IsLiteral(s) && Value(Magnitude(s)) < U16_LIMIT
    ensures r.Some? ==> r.value == Value(Magnitude(s))
  {
    match Parse(s, U16_LIMIT)
    case Some(n) => Some(n)
    case None => None
  }

  /** `CF_INSTANCE_INDEX` as a `u128`: accepted exactly when it is an unsigned literal in range. */
  function GetInstanceIndex(env: Env): (r: Result<U128>)
    ensures r.Ok? <==>
      CF_INSTANCE_INDEX in env && IsLiteral(env[CF_INSTANCE_INDEX])
      && Value(Magnitude(env[CF_INSTANCE_INDEX])) < U128_LIMIT
    ensures r.Ok? ==> r.value == Value(Magnitude(env[CF_INSTANCE_INDEX]))
    ensures r.Err? ==>
      r.error == (if CF_INSTANCE_INDEX in env then EnvMalformed(CF_INSTANCE_INDEX, INVALID_U128)
                  else EnvNotSet(CF_INSTANCE_INDEX))
  {
    Read(env, CF_INSTANCE_INDEX, ParseU128, INVALID_U128)
  }

  /** `CF_INSTANCE_PORT` as a `u16`: accepted exactly when it is an unsigned literal below 65536. */
  function GetInstancePort(env: Env): (r: Result<U16>)
    ensures r.Ok? <==>
      CF_INSTANCE_PORT in env && IsLiteral(env[CF_INSTANCE_PORT])
      && Value(Magnitude(env[CF_INSTANCE_PORT])) < U16_LIMIT
    ensures r.Ok? ==> r.value == Value(Magnitude(env[CF_INSTANCE_PORT]))
    ensures r.Err? ==>
      r.error == (if CF_INSTANCE_PORT in env then EnvMalformed(CF_INSTANCE_PORT, INVALID_U16)
                  else EnvNotSet(CF_INSTANCE_PORT))
  {
    Read(env, CF_INSTANCE_PORT, ParseU16, INVALID_U16)
  }

  /** `PORT` as a `u16`: accepted exactly when it is an unsigned literal below 65536. */
  function GetPort(env: Env): (r: Result<U16>)
    ensures r.Ok? <==>
      PORT in env && IsLiteral(env[PORT]) && Value(Magnitude(env[PORT])) < U16_LIMIT
    ensures r.Ok? ==> r.value == Value(Magnitude(env[PORT]))
    ensures r.Err? ==>
      r.error == (if PORT in env then EnvMalformed(PORT, INVALID_U16) else EnvNotSet(PORT))
  {
    Read(env, PORT, ParseU16, INVALID_U16)
  }

  /** A port written in decimal is read back exactly when it fits 16 bits. */
  lemma PortOfDecimal(env: Env, n: nat)
    ensures GetPort(env[PORT := ToDecimal(n)])
         == if n < U16_LIMIT then Ok(n) else Err(EnvMalformed(PORT, INVALID_U16))
    ensures GetInstancePort(env[CF_INSTANCE_PORT := ToDecimal(n)])
         == if n < U16_LIMIT then Ok(n) else Err(EnvMalformed(CF_INSTANCE_PORT, INVALID_U16))
  {
    assert Magnitude(ToDecimal(n)) == ToDecimal(n);
  }

  /** The index values the source's own tests use: `8` is read, `-1` and `hello` are malformed. */
  lemma InstanceIndexExamples(env: Env)
    ensures GetInstanceIndex(env[CF_INSTANCE_INDEX := "8"]) == Ok(8)
    ensures GetInstanceIndex(env[CF_INSTANCE_INDEX := "-1"]) == Err(EnvMalformed(CF_INSTANCE_INDEX, INVALID_U128))
    ensures GetInstanceIndex(env[CF_INSTANCE_INDEX := "hello"]) == Err(EnvMalformed(CF_INSTANCE_INDEX, INVALID_U128))
  {
    assert ToDecimal(8) == "8";
    assert Magnitude(ToDecimal(8)) == ToDecimal(8);
    assert !IsDigit(Magnitude("-1")[0]);
    assert !IsDigit(Magnitude("hello")[0]);
  }

  // ---------------------------------------------------------------------------
  // MEMORY_LIMIT
  // ---------------------------------------------------------------------------

  /** What a call of the source can end in: a returned `Result`, or a panic. */
  datatype Outcome<T> = Returned(result: Result<T>) | Panicked

  /**
   * `get_memory_limit` as written: every failure of `MemoryLimitFromString`,
   * the unknown unit included, is reported as one malformed `MEMORY_LIMIT`,
   * but an empty value reaches the unit lookup, whose `unwrap` panics.
   */
  function GetMemoryLimitAsWritten(env: Env): (o: Outcome<MemoryLimit>)
    ensures o == Panicked <==> MEMORY_LIMIT in env && env[MEMORY_LIMIT] == ""
    ensures MEMORY_LIMIT in env && env[MEMORY_LIMIT] != "" ==>
      o.Returned? && (o.result.Ok? <==> MemoryLimitFromString(env[MEMORY_LIMIT], MEMORY_LIMIT).Ok?)
    ensures o.Returned? && o.result.Ok? ==>
      MEMORY_LIMIT in env && env[MEMORY_LIMIT] != ""
      && Ok(o.result.value) == MemoryLimitFromString(env[MEMORY_LIMIT], MEMORY_LIMIT)
    ensures o.Returned? && o.result.Err? ==>
      o.result.error == (if MEMORY_LIMIT in env then EnvMalformed(MEMORY_LIMIT, INVALID_MEMORY)
                         else EnvNotSet(MEMORY_LIMIT))
  {
    if MEMORY_LIMIT in env then
      var s := env[MEMORY_LIMIT];
      if s == "" then
        Panicked
      else
        match MemoryLimitFromString(s, MEMORY_LIMIT)
        case Ok(limit) => Returned(Ok(limit))
        case Err(_) => Returned(Err(EnvMalformed(MEMORY_LIMIT, INVALID_MEMORY)))
    else
      Returned(Err(EnvNotSet(MEMORY_LIMIT)))
  }

  /** The discrepancy: an empty `MEMORY_LIMIT` is a panic, not a reported error. */
  lemma EmptyMemoryLimitPanics(env: Env)
    ensures GetMemoryLimitAsWritten(env[MEMORY_LIMIT := ""]) == Panicked
  {
  }

  /**
   * `get_memory_limit` with the empty value reported like every other
   * malformed one, so that the accessor never panics.
   */
  function GetMemoryLimit(env: Env): (r: Result<MemoryLimit>)
    ensures r.Ok? <==>
      MEMORY_LIMIT in env && env[MEMORY_LIMIT] != ""
      && MemoryLimitFromString(env[MEMORY_LIMIT], MEMORY_LIMIT).Ok?
    ensures r.Ok? ==> Ok(r.value) == MemoryLimitFromString(env[MEMORY_LIMIT], MEMORY_LIMIT)
    ensures r.Err? ==>
      r.error == (if MEMORY_LIMIT in env then EnvMalformed(MEMORY_LIMIT, INVALID_MEMORY)
                  else EnvNotSet(MEMORY_LIMIT))
  {
    if MEMORY_LIMIT in env then
      var s := env[MEMORY_LIMIT];
      if s == "" then
        Err(EnvMalformed(MEMORY_LIMIT, INVALID_MEMORY))
      else
        match MemoryLimitFromString(s, MEMORY_LIMIT)
        case Ok(limit) => Ok(limit)
        case Err(_) => Err(EnvMalformed(MEMORY_LIMIT, INVALID_MEMORY))
    else
      Err(EnvNotSet(MEMORY_LIMIT))
  }

  /** Wherever the source returns, the corrected accessor returns the same result. */
  lemma MemoryLimitCorrectionAgrees(env: Env)
    ensures GetMemoryLimitAsWritten(env).Returned? ==> GetMemoryLimitAsWritten(env).result == GetMemoryLimit(env)
    ensures GetMemoryLimitAsWritten(env) == Panicked ==> GetMemoryLimit(env) == Err(EnvMalformed(MEMORY_LIMIT, INVALID_MEMORY))
  {
  }

  /** `MEMORY_LIMIT` is read exactly when it is a `u128` literal followed by one unit letter. */
  lemma MemoryLimitAccepted(env: Env)
    requires MEMORY_LIMIT in env
    ensures var s := env[MEMORY_LIMIT];
      GetMemoryLimit(env).Ok? <==>
        |s| > 0 && IsUnitChar(s[|s| - 1]) && IsLiteral(s[..|s| - 1]) && Value(Magnitude(s[..|s| - 1])) < U128_LIMIT
    ensures GetMemoryLimit(env) != Err(UnknownMemoryUnit)
  {
  }

  lemma MemoryLimitOfDecimalEnv(env: Env, n: U128, c: char)
    requires IsUnitChar(c)
    ensures GetMemoryLimit(env[MEMORY_LIMIT := ToDecimal(n) + [c]]) == Ok(MemoryLimit(UnitOf(c), n))
  {
    MemoryLimitOfDecimal(n, c, MEMORY_LIMIT);
  }

  // ---------------------------------------------------------------------------
  // Paths and the user name: never malformed
  // ---------------------------------------------------------------------------

  /** A filesystem path; every string is one. */
  datatype PathBuf = PathBuf(path: string)

  function GetPath(env: Env, name: string): (r: Result<PathBuf>)
    ensures r.Ok? <==> name in env
    ensures r.Ok? ==> r.value == PathBuf(env[name])
    ensures r.Err? ==> r.error == EnvNotSet(name)
  {
    match ReadRaw(env, name)
    case Ok(s) => Ok(PathBuf(s))
    case Err(e) => Err(e)
  }

  function GetHome(env: Env): (r: Result<PathBuf>)
    ensures r.Ok? <==> HOME in env
    ensures r.Ok? ==> r.value == PathBuf(env[HOME])
    ensures r.Err? ==> r.error == EnvNotSet(HOME)
  {
    GetPath(env, HOME)
  }

  function GetPwd(env: Env): (r: Result<PathBuf>)
    ensures r.Ok? <==> PWD in env
    ensures r.Ok? ==> r.value == PathBuf(env[PWD])
    ensures r.Err? ==> r.error == EnvNotSet(PWD)
  {
    GetPath(env, PWD)
  }

  function GetTmpDir(env: Env): (r: Result<PathBuf>)
    ensures r.Ok? <==> TMPDIR in env
    ensures r.Ok? ==> r.value == PathBuf(env[TMPDIR])
    ensures r.Err? ==> r.error == EnvNotSet(TMPDIR)
  {
    GetPath(env, TMPDIR)
  }

  function GetUser(env: Env): (r: Result<string>)
    ensures r.Ok? <==> USER in env
    ensures r.Ok? ==> r.value == env[USER]
    ensures r.Err? ==> r.error == EnvNotSet(USER)
  {
    ReadRaw(env, USER)
  }

  // ---------------------------------------------------------------------------
  // VCAP_APPLICATION and VCAP_SERVICES
  // ---------------------------------------------------------------------------

  /** The decoded `VCAP_SERVICES`: service type name to the bindings of that type. */
  type ServiceMap = map<string, seq<Service<Json>>>

  function GetApplicationInfo(env: Env, decode: string -> Option<Application>): (r: Result<Application>)
    ensures ClassifiedJson(env, VCAP_APPLICATION, decode, r)
    ensures !(r.Err? && r.error.EnvMalformed?)
  {
    ReadJson(env, VCAP_APPLICATION, decode)
  }

  function GetServices(env: Env, decode: string -> Option<ServiceMap>): (r: Result<ServiceMap>)
    ensures ClassifiedJson(env, VCAP_SERVICES, decode, r)
    ensures !(r.Err? && r.error.EnvMalformed?)
  {
    ReadJson(env, VCAP_SERVICES, decode)
  }

  /** Some binding of any type has this name. */
  ghost predicate HasServiceNamed(services: ServiceMap, name: string) {
    exists key, i :: key in services && 0 <= i < |services[key]| && services[key][i].name == name
  }

  /** The outcome of re-typing one matched binding; its failure names the binding's credentials. */
  function Retyped<T>(s: Service<Json>, retype: Service<Json> -> Option<Service<T>>): (r: Result<Service<T>>)
    ensures r.Ok? <==> retype(s).Some?
    ensures r.Ok? ==> retype(s) == Some(r.value)
    ensures r.Err? ==> r.error == JsonMalformed(s.name + ".credentials")
  {
    match retype(s)
    case Some(t) => Ok(t)
    case None => Err(JsonMalformed(s.name + ".credentials"))
  }

  /**
   * What a lookup by name may return: if some binding has the name, the
   * re-typed form of the first such binding of one bucket (which bucket is
   * left open, since buckets are visited in no specified order); otherwise
   * `ServiceNotPresent`.
   */
  ghost predicate ByNameOutcome<T>(services: ServiceMap, retype: Service<Json> -> Option<Service<T>>,
                                   name: string, r: Result<Service<T>>) {
    if HasServiceNamed(services, name) then
      exists key, i :: key in services && 0 <= i < |services[key]| && services[key][i].name == name
                       && (forall j :: 0 <= j < i ==> services[key][j].name != name)
                       && r == Retyped(services[key][i], retype)
    else
      r == Err(ServiceNotPresent(name))
  }

  /**
   * Searches every bucket of `VCAP_SERVICES` for the first binding with the
   * given name and re-types it; errors of `GetServices` pass through unchanged.
   */
  method GetServiceByName<T>(env: Env, decode: string -> Option<ServiceMap>,
                             retype: Service<Json> -> Option<Service<T>>, name: string)
    returns (r: Result<Service<T>>)
    ensures GetServices(env, decode).Err? ==> r == Err(GetServices(env, decode).error)
    ensures GetServices(env, decode).Ok? ==> ByNameOutcome(GetServices(env, decode).value, retype, name, r)
    ensures GetServices(env, decode).Ok? ==>
      (r == Err(ServiceNotPresent(name)) <==> !HasServiceNamed(GetServices(env, decode).value, name))
  {
    var found := GetServices(env, decode);
    if found.Err? {
      return Err(found.error);
    }
    var services := found.value;
    var pending := services.Keys;
    while pending != {}
      invariant pending <= services.Keys
      invariant forall key, i :: key in services && key !in pending && 0 <= i < |services[key]|
                  ==> services[key][i].name != name
      decreases pending
    {
      var key :| key in pending;
      var bucket := services[key];
      var j := 0;
      while j < |bucket|
        invariant j <= |bucket|
        invariant forall i :: 0 <= i < j ==> bucket[i].name != name
      {
        if bucket[j].name == name {
          r := Retyped(bucket[j], retype);
          return;
        }
        j := j + 1;
      }
      pending := pending - {key};
    }
    r := Err(ServiceNotPresent(name));
  }

  /** When exactly one binding carries the name, the lookup's result is fully determined. */
  lemma ByNameUnique<T>(services: ServiceMap, retype: Service<Json> -> Option<Service<T>>, name: string,
                        key: string, i: nat, r: Result<Service<T>>)
    requires key in services && i < |services[key]| && services[key][i].name == name
    requires forall k, j :: k in services && 0 <= j < |services[k]| && services[k][j].name == name
               ==> k == key && j == i
    requires ByNameOutcome(services, retype, name, r)
    ensures r == Retyped(services[key][i], retype)
  {
  }

  /**
   * Once `VCAP_SERVICES` is decoded, a lookup by name fails only because the
   * name is absent or its credentials do not re-type, and an `Ok` result is
   * the re-typing of a stored binding with that name.
   */
  lemma ByNameErrors<T>(services: ServiceMap, retype: Service<Json> -> Option<Service<T>>, name: string,
                        r: Result<Service<T>>)
    requires ByNameOutcome(services, retype, name, r)
    ensures r.Err? ==>
      r.error == ServiceNotPresent(name) || r.error == JsonMalformed(name + ".credentials")
    ensures r.Ok? ==>
      exists key, i :: key in services && 0 <= i < |services[key]| && services[key][i].name == name
                       && retype(services[key][i]) == Some(r.value)
  {
    if HasServiceNamed(services, name) {
      var key, i :| key in services && 0 <= i < |services[key]| && services[key][i].name == name
                    && (forall j :: 0 <= j < i ==> services[key][j].name != name)
                    && r == Retyped(services[key][i], retype);
    }
  }

  /**
   * With the untyped credentials (the identity re-typing), a present name
   * always yields a binding with that name, never a credentials error.
   */
  lemma ByNameUntyped(services: ServiceMap, name: string, r: Result<Service<Json>>)
    requires HasServiceNamed(services, name)
    requires ByNameOutcome(services, s => Some(s), name, r)
    ensures r.Ok? && r.value.name == name
  {
  }

  /** The list form of the re-typing: it succeeds only if every element does. */
  function RetypeAll<T>(retype: Service<Json> -> Option<Service<T>>, xs: seq<Service<Json>>)
    : (r: Option<seq<Service<T>>>)
    ensures r.Some? <==> forall i :: 0 <= i < |xs| ==> retype(xs[i]).Some?
    ensures r.Some? ==> |r.value| == |xs| && forall i :: 0 <= i < |xs| ==> retype(xs[i]) == Some(r.value[i])
  {
    if xs == [] then
      Some([])
    else
      var rest := RetypeAll(retype, xs[1..]);
      assert forall i :: 1 <= i < |xs| ==> xs[i] == xs[1..][i - 1];
      if retype(xs[0]).Some? && rest.Some? then
        Some([retype(xs[0]).value] + rest.value)
      else
        None
  }

  /**
   * The bindings of one service type, re-typed as a whole. A missing type is
   * `ServiceTypeNotPresent`; a present type with no bindings is an empty
   * success; a re-typing failure names `<type>.credentials`.
   */
  function GetServicesByType<T>(env: Env, decode: string -> Option<ServiceMap>,
                                retype: Service<Json> -> Option<Service<T>>, typeName: string)
    : (r: Result<seq<Service<T>>>)
    ensures GetServices(env, decode).Err? ==> r == Err(GetServices(env, decode).error)
    ensures GetServices(env, decode).Ok? && typeName !in GetServices(env, decode).value ==>
      r == Err(ServiceTypeNotPresent(typeName))
    ensures GetServices(env, decode).Ok? && typeName in GetServices(env, decode).value ==>
      var bucket := GetServices(env, decode).value[typeName];
      && (r.Ok? <==> forall i :: 0 <= i < |bucket| ==> retype(bucket[i]).Some?)
      && (r.Ok? ==> |r.value| == |bucket| && forall i :: 0 <= i < |bucket| ==> retype(bucket[i]) == Some(r.value[i]))
      && (r.Err? ==> r.error == JsonMalformed("<" + typeName + ">.credentials"))
  {
    match GetServices(env, decode)
    case Ok(services) =>
      if typeName in services then
        match RetypeAll(retype, services[typeName])
        case Some(typed) => Ok(typed)
        case None => Err(JsonMalformed("<" + typeName + ">.credentials"))
      else
        Err(ServiceTypeNotPresent(typeName))
    case Err(e) => Err(e)
  }

  /** A service type that is present with no bindings is an empty success, not `ServiceTypeNotPresent`. */
  lemma ByTypeEmptyBucket<T>(env: Env, decode: string -> Option<ServiceMap>,
                             retype: Service<Json> -> Option<Service<T>>, typeName: string)
    requires GetServices(env, decode).Ok?
    requires typeName in GetServices(env, decode).value && GetServices(env, decode).value[typeName] == []
    ensures GetServicesByType(env, decode, retype, typeName) == Ok([])
  {
  }
}
