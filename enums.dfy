/**
 * The closed error taxonomy shared by every accessor, its `Display` rendering,
 * and the memory unit read from the last character of `MEMORY_LIMIT`.
 */
module Enums {

  datatype Error =
    | EnvNotSet(variableName: string)
    | EnvMalformed(variableName: string, comment: string)
    | JsonMalformed(variableToParseName: string)
    | ServiceNotPresent(serviceName: string)
    | ServiceTypeNotPresent(serviceTypeName: string)
    | UnknownMemoryUnit

  /** Rust's `Result<T, Error>`: every accessor yields a value or exactly one error. */
  datatype Result<+T> = Ok(value: T) | Err(error: Error)

  // ---------------------------------------------------------------------------
  // Debug quoting of the payloads, as `{:?}` renders a string
  // ---------------------------------------------------------------------------

  /** Characters that `{:?}` writes as a two-character backslash escape. */
  predicate NeedsEscape(c: char) {
    c == '"' || c == '\\' || c == '\n' || c == '\r' || c == '\t' || c == '\0'
  }

  function EscapeChar(c: char): (e: string)
    ensures NeedsEscape(c) ==> |e| == 2 && e[0] == '\\'
    ensures !NeedsEscape(c) ==> e == [c]
  {
    match c
    case '"' => "\\\""
    case '\\' => "\\\\"
    case '\n' => "\\n"
    case '\r' => "\\r"
    case '\t' => "\\t"
    case '\0' => "\\0"
    case _ => [c]
  }

  function Escape(s: string): string {
    if s == [] then [] else EscapeChar(s[0]) + Escape(s[1..])
  }

  /** The `{:?}` rendering of a string: escaped and wrapped in double quotes. */
  function Quote(s: string): (q: string)
    ensures |q| >= 2 && q[0] == '"' && q[|q| - 1] == '"'
  {
    "\"" + Escape(s) + "\""
  }

  /** Printable ASCII other than `"` and `\`: the characters `{:?}` writes as they are. */
  predicate IsPlainChar(c: char) {
    ' ' <= c <= '~' && c != '"' && c != '\\'
  }

  predicate IsPlain(s: string) {
    forall i :: 0 <= i < |s| ==> IsPlainChar(s[i])
  }

  /** A string with nothing to escape is quoted as it stands. */
  lemma {:induction false} EscapePlain(s: string)
    requires IsPlain(s)
    ensures Escape(s) == s
  {
    if s != [] {
      assert IsPlain(s[1..]) by {
        forall i | 0 <= i < |s[1..]| ensures IsPlainChar(s[1..][i]) {
          assert s[1..][i] == s[i + 1];
        }
      }
      EscapePlain(s[1..]);
      assert s == [s[0]] + s[1..];
    }
  }

  lemma QuotePlain(s: string)
    requires IsPlain(s)
    ensures Quote(s) == "\"" + s + "\""
  {
    EscapePlain(s);
  }

  /** Escapes form a prefix-free code: the first escaped character can be read back. */
  lemma EscapeCharPrefixFree(c: char, d: char, x: string, y: string)
    requires EscapeChar(c) + x == EscapeChar(d) + y
    ensures c == d && x == y
  {
    var ec, ed := EscapeChar(c), EscapeChar(d);
    assert (ec + x)[0] == ec[0] && (ed + y)[0] == ed[0];
    if NeedsEscape(c) && NeedsEscape(d) {
      assert (ec + x)[1] == ec[1] && (ed + y)[1] == ed[1];
      assert c == d;
      assert x == (ec + x)[2..];
    } else if !NeedsEscape(c) && !NeedsEscape(d) {
      assert x == (ec + x)[1..];
    } else {
      assert false;
    }
  }

  /**
   * The closing quote of a `{:?}` rendering is the first unescaped `"`, so
   * whatever follows it cannot change which string was quoted.
   */
  lemma {:induction false} EscapedThenQuote(a: string, b: string, x: string, y: string)
    requires Escape(a) + "\"" + x == Escape(b) + "\"" + y
    ensures a == b && x == y
    decreases |a|
  {
    if a == [] && b == [] {
      assert x == (Escape(a) + "\"" + x)[1..];
      assert y == (Escape(b) + "\"" + y)[1..];
    } else if a == [] || b == [] {
      EscapedHead(a, x);
      EscapedHead(b, y);
      assert false;
    } else {
      var xa := Escape(a[1..]) + "\"" + x;
      var yb := Escape(b[1..]) + "\"" + y;
      assert Escape(a) + "\"" + x == EscapeChar(a[0]) + xa;
      assert Escape(b) + "\"" + y == EscapeChar(b[0]) + yb;
      EscapeCharPrefixFree(a[0], b[0], xa, yb);
      EscapedThenQuote(a[1..], b[1..], x, y);
      assert a == [a[0]] + a[1..] && b == [b[0]] + b[1..];
    }
  }

  /** An escaped string never starts with a bare `"`. */
  lemma EscapedHead(a: string, x: string)
    ensures (Escape(a) + "\"" + x)[0] == '"' <==> a == []
  {
    if a != [] {
      assert Escape(a) + "\"" + x == EscapeChar(a[0]) + (Escape(a[1..]) + "\"" + x);
    }
  }

  lemma QuoteThenRest(a: string, b: string, x: string, y: string)
    requires Quote(a) + x == Quote(b) + y
    ensures a == b && x == y
  {
    var l, r := Quote(a) + x, Quote(b) + y;
    assert l[1..] == Escape(a) + "\"" + x;
    assert r[1..] == Escape(b) + "\"" + y;
    EscapedThenQuote(a, b, x, y);
  }

  // ---------------------------------------------------------------------------
  // Display
  // ---------------------------------------------------------------------------

  function Display(e: Error): (msg: string)
    ensures msg == "memory unit unknown" <==> e.UnknownMemoryUnit?
  {
    match e
    case EnvNotSet(variableName) =>
      "environment variable " + Quote(variableName) + " is not set"
    case ServiceNotPresent(serviceName) =>
      "service " + Quote(serviceName) + " is not present in VCAP_SERVICES"
    case ServiceTypeNotPresent(serviceTypeName) =>
      "service type " + Quote(serviceTypeName) + " is not present in VCAP_SERVICES"
    case JsonMalformed(variableToParseName) =>
      "the json from " + Quote(variableToParseName) + " could not be parsed"
    case EnvMalformed(variableName, comment) =>
      "the env variable " + Quote(variableName) + " does not match the required criterial. " + Quote(comment)
    case UnknownMemoryUnit =>
      "memory unit unknown"
  }

  predicate HasPlainPayload(e: Error) {
    match e
    case EnvNotSet(v) => IsPlain(v)
    case EnvMalformed(v, c) => IsPlain(v) && IsPlain(c)
    case JsonMalformed(v) => IsPlain(v)
    case ServiceNotPresent(s) => IsPlain(s)
    case ServiceTypeNotPresent(t) => IsPlain(t)
    case UnknownMemoryUnit => true
  }

  /** With payloads that need no escaping, each variant renders to its documented message. */
  lemma DisplayPlain(e: Error)
    requires HasPlainPayload(e)
    ensures e.EnvNotSet? ==>
      Display(e) == "environment variable " + ("\"" + e.variableName + "\"") + " is not set"
    ensures e.ServiceNotPresent? ==>
      Display(e) == "service " + ("\"" + e.serviceName + "\"") + " is not present in VCAP_SERVICES"
    ensures e.ServiceTypeNotPresent? ==>
      Display(e) == "service type " + ("\"" + e.serviceTypeName + "\"") + " is not present in VCAP_SERVICES"
    ensures e.JsonMalformed? ==>
      Display(e) == "the json from " + ("\"" + e.variableToParseName + "\"") + " could not be parsed"
    ensures e.EnvMalformed? ==>
      Display(e) == "the env variable " + ("\"" + e.variableName + "\"")
                    + " does not match the required criterial. " + ("\"" + e.comment + "\"")
    ensures e.UnknownMemoryUnit? ==> Display(e) == "memory unit unknown"
  {
    match e
    case EnvNotSet(v) => QuotePlain(v);
    case ServiceNotPresent(s) => QuotePlain(s);
    case ServiceTypeNotPresent(t) => QuotePlain(t);
    case JsonMalformed(v) => QuotePlain(v);
    case EnvMalformed(v, c) => QuotePlain(v); QuotePlain(c);
    case UnknownMemoryUnit =>
  }

  lemma StripPrefix(p: string, x: string, y: string)
    requires p + x == p + y
    ensures x == y
  {
    assert x == (p + x)[|p|..];
    assert y == (p + y)[|p|..];
  }

  /** Two errors that render to the same message are the same error. */
  lemma DisplayInjective(e1: Error, e2: Error)
    requires Display(e1) == Display(e2)
    ensures e1 == e2
  {
    var m := Display(e1);
    if e1.UnknownMemoryUnit? || e2.UnknownMemoryUnit? {
      return;
    }
    // Every other message starts with a fixed prefix followed by an opening quote.
    var p1, p2 := Prefix(e1), Prefix(e2);
    PrefixOfDisplay(e1);
    PrefixOfDisplay(e2);
    PrefixDetermined(e1, e2, m);
    match e1
    case EnvNotSet(v1) =>
      QuotedBetween(p1, " is not set", v1, e2.variableName);
    case ServiceNotPresent(s1) =>
      QuotedBetween(p1, " is not present in VCAP_SERVICES", s1, e2.serviceName);
    case ServiceTypeNotPresent(t1) =>
      QuotedBetween(p1, " is not present in VCAP_SERVICES", t1, e2.serviceTypeName);
    case JsonMalformed(v1) =>
      QuotedBetween(p1, " could not be parsed", v1, e2.variableToParseName);
    case EnvMalformed(v1, c1) =>
      MalformedInjective(v1, c1, e2.variableName, e2.comment);
  }

  /** A message made of a fixed prefix, one quoted payload and a fixed tail determines the payload. */
  lemma QuotedBetween(p: string, tail: string, a: string, b: string)
    requires p + Quote(a) + tail == p + Quote(b) + tail
    ensures a == b
  {
    assert p + Quote(a) + tail == p + (Quote(a) + tail);
    assert p + Quote(b) + tail == p + (Quote(b) + tail);
    StripPrefix(p, Quote(a) + tail, Quote(b) + tail);
    QuoteThenRest(a, b, tail, tail);
  }

  lemma MalformedInjective(v1: string, c1: string, v2: string, c2: string)
    requires Display(EnvMalformed(v1, c1)) == Display(EnvMalformed(v2, c2))
    ensures v1 == v2 && c1 == c2
  {
    var mid := " does not match the required criterial. ";
    MalformedAfterPrefix(v1, c1, v2, c2);
    QuoteThenRest(v1, v2, mid + Quote(c1), mid + Quote(c2));
    StripPrefix(mid, Quote(c1), Quote(c2));
    assert Quote(c1) + [] == Quote(c2) + [];
    QuoteThenRest(c1, c2, [], []);
  }

  lemma MalformedAfterPrefix(v1: string, c1: string, v2: string, c2: string)
    requires Display(EnvMalformed(v1, c1)) == Display(EnvMalformed(v2, c2))
    ensures Quote(v1) + (" does not match the required criterial. " + Quote(c1))
         == Quote(v2) + (" does not match the required criterial. " + Quote(c2))
  {
    var p := "the env variable ";
    var mid := " does not match the required criterial. ";
    Reassociate(p, Quote(v1), mid, Quote(c1));
    Reassociate(p, Quote(v2), mid, Quote(c2));
    StripPrefix(p, Quote(v1) + (mid + Quote(c1)), Quote(v2) + (mid + Quote(c2)));
  }

  lemma Reassociate(a: string, b: string, c: string, d: string)
    ensures a + b + c + d == a + (b + (c + d))
  {
  }

  /** The fixed text a message starts with, before the first quoted payload. */
  function Prefix(e: Error): string
    requires !e.UnknownMemoryUnit?
  {
    match e
    case EnvNotSet(_) => "environment variable "
    case ServiceNotPresent(_) => "service "
    case ServiceTypeNotPresent(_) => "service type "
    case JsonMalformed(_) => "the json from "
    case EnvMalformed(_, _) => "the env variable "
  }

  lemma PrefixOfDisplay(e: Error)
    requires !e.UnknownMemoryUnit?
    ensures |Prefix(e)| < |Display(e)| && Display(e)[..|Prefix(e)|] == Prefix(e)
    ensures Display(e)[|Prefix(e)|] == '"'
  {
  }

  /** No message prefix followed by its opening quote starts another one. */
  lemma PrefixDetermined(e1: Error, e2: Error, m: string)
    requires !e1.UnknownMemoryUnit? && !e2.UnknownMemoryUnit?
    requires |Prefix(e1)| < |m| && m[..|Prefix(e1)|] == Prefix(e1) && m[|Prefix(e1)|] == '"'
    requires |Prefix(e2)| < |m| && m[..|Prefix(e2)|] == Prefix(e2) && m[|Prefix(e2)|] == '"'
    ensures Prefix(e1) == Prefix(e2)
  {
    var q1, q2 := Prefix(e1) + "\"", Prefix(e2) + "\"";
    assert q1 == m[..|q1|] && q2 == m[..|q2|];
    assert q1[0] == q2[0] && q1[4] == q2[4] && q1[8] == q2[8];
  }

  // ---------------------------------------------------------------------------
  // ByteUnit
  // ---------------------------------------------------------------------------

  datatype ByteUnit = Gigabyte | Megabyte

  /** The letter that selects a unit, upper or lower case. */
  predicate IsUnitChar(c: char) {
    c == 'M' || c == 'm' || c == 'G' || c == 'g'
  }

  /**
   * Reads the unit from the last character only. The source unwraps that
   * character and panics on an empty string, hence the precondition.
   */
  function ByteUnitFromString(input: string): (r: Result<ByteUnit>)
    requires |input| > 0
    ensures r == Ok(Megabyte) <==> input[|input| - 1] in "Mm"
    ensures r == Ok(Gigabyte) <==> input[|input| - 1] in "Gg"
    ensures r.Ok? <==> IsUnitChar(input[|input| - 1])
    ensures r.Err? ==> r.error == UnknownMemoryUnit
  {
    match input[|input| - 1]
    case 'M' => Ok(Megabyte)
    case 'm' => Ok(Megabyte)
    case 'G' => Ok(Gigabyte)
    case 'g' => Ok(Gigabyte)
    case _ => Err(UnknownMemoryUnit)
  }

  /** Only the last character matters: what precedes it never changes the unit. */
  lemma ByteUnitIgnoresPrefix(p: string, q: string, c: char)
    ensures ByteUnitFromString(p + [c]) == ByteUnitFromString(q + [c])
  {
    assert (p + [c])[|p|] == c && (q + [c])[|q|] == c;
  }

  /** Both spellings of each unit letter select it, after any prefix. */
  lemma ByteUnitOfSuffix(p: string, u: ByteUnit)
    ensures u == Megabyte ==> ByteUnitFromString(p + "M") == Ok(u) && ByteUnitFromString(p + "m") == Ok(u)
    ensures u == Gigabyte ==> ByteUnitFromString(p + "G") == Ok(u) && ByteUnitFromString(p + "g") == Ok(u)
  {
    assert (p + "M")[|p|] == 'M' && (p + "m")[|p|] == 'm';
    assert (p + "G")[|p|] == 'G' && (p + "g")[|p|] == 'g';
  }
}
