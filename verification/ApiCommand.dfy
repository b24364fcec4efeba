/** Request-building and response classification of `gh api`: `key=value`
    fields, the typed ("magic") field values, the default method, the
    response-header listing and the server-error message. */
module ApiCommand {
  import opened Wrappers
  import Strings
  import Decimal
  import Sorting
  import PrParams

  // ---------------------------------------------------------------- fields

  /** A `key=value` flag split at its first '='. */
  datatype Field = Field(key: string, value: string)

  /** parseField: the key before the first '=', the value after it (which may
      itself hold '='); without '=' the whole text is reported back. */
  function ParseField(f: string): (r: Result<Field, string>)
    ensures r.Ok? <==> '=' in f
    ensures r.Ok? ==> r.value.key + "=" + r.value.value == f && '=' !in r.value.key
    ensures r.Err? ==> r.error == f
  {
    var i := Strings.IndexOf(f, '=');
    if i == -1 then Err(f)
    else
      assert f == f[..i] + "=" + f[i + 1..];
      Ok(Field(f[..i], f[i + 1..]))
  }

  /** Any key without '=' and any value come back out of their `key=value`. */
  lemma ParseFieldRoundTrip(key: string, value: string)
    requires '=' !in key
    ensures ParseField(key + "=" + value) == Ok(Field(key, value))
  {
    Strings.IndexOfAfter(key, '=', value);
    var f := key + "=" + value;
    assert f[..|key|] == key && f[|key| + 1..] == value;
  }

  const FieldErrorSuffix := " requires a value separated by an '=' sign"

  /** The message of a field without '=': the field appears `%q`-quoted. */
  function FieldErrorMessage(f: string): (m: string)
    ensures Strings.HasPrefix(m, "field \"")
  {
    "field " + PrParams.GoQuote(f) + FieldErrorSuffix
  }

  /** The field named in the message is recovered by unquoting it, so
      distinct fields give distinct messages. */
  lemma FieldErrorNamesField(f: string)
    ensures var m := FieldErrorMessage(f);
      && |m| >= 6 + |FieldErrorSuffix| + 2
      && PrParams.Unquote(m[6..|m| - |FieldErrorSuffix|]) == Some(f)
  {
    var m := FieldErrorMessage(f);
    var q := PrParams.GoQuote(f);
    assert m[6..|m| - |FieldErrorSuffix|] == q;
    PrParams.QuoteRoundTrip(f);
  }

  /** A field holding a double quote has it escaped in the message. */
  lemma FieldErrorEscapesQuote()
    ensures FieldErrorMessage("a\"b") == "field \"a\\\"b\"" + FieldErrorSuffix
  {
    var f := "a\"b";
    assert PrParams.Escape(f[2..]) == "b";
    assert PrParams.Escape(f[1..]) == "\\\"b";
    assert PrParams.Escape(f) == "a\\\"b";
  }

  /** A request parameter: JSON string, integer, boolean or null, or the
      contents of a named file (reading it is not modelled). */
  datatype Value = Str(s: string) | Int(n: int) | Bool(b: bool) | Null | FileContents(path: string)

  /** magicFieldValue: '@' names a file; integers (as strconv.Atoi reads them),
      `true`, `false` and `null` become typed values; anything else stays a
      string. */
  function MagicValue(v: string): (r: Value)
    ensures Strings.HasPrefix(v, "@") <==> r.FileContents?
    ensures r.FileContents? ==> "@" + r.path == v
    ensures r.Int? ==> Decimal.Atoi(v) == Some(r.n)
    ensures r.Bool? ==> v == (if r.b then "true" else "false")
    ensures r.Null? ==> v == "null"
    ensures r.Str? ==> r.s == v
    ensures !Strings.HasPrefix(v, "@") && Decimal.Atoi(v).Some? ==> r.Int?
    ensures !Strings.HasPrefix(v, "@") && Decimal.Atoi(v).None? && v !in {"true", "false", "null"} ==> r == Str(v)
  {
    if Strings.HasPrefix(v, "@") then
      assert v == "@" + v[1..];
      FileContents(v[1..])
    else if Decimal.Atoi(v).Some? then Int(Decimal.Atoi(v).value)
    else if v == "true" then Bool(true)
    else if v == "false" then Bool(false)
    else if v == "null" then Null
    else Str(v)
  }

  /** Every in-range integer, written as `%d` writes it, is read back as that
      integer. */
  lemma MagicValueOfInteger(n: int)
    requires Decimal.MinInt <= n <= Decimal.MaxInt
    ensures MagicValue(Decimal.FormatInt(n)) == Int(n)
  {
    Decimal.AtoiFormatInt(n);
  }

  /** A flag of either kind, in the order parseFields processes them. */
  datatype Flag = Raw(text: string) | Magic(text: string)

  /** The order of processing: every raw field, then every magic field. */
  function Flags(raw: seq<string>, magic: seq<string>): (fs: seq<Flag>)
    ensures |fs| == |raw| + |magic|
    ensures forall i :: 0 <= i < |raw| ==> fs[i] == Raw(raw[i])
    ensures forall i :: 0 <= i < |magic| ==> fs[|raw| + i] == Magic(magic[i])
  {
    seq(|raw|, i requires 0 <= i < |raw| => Raw(raw[i]))
      + seq(|magic|, i requires 0 <= i < |magic| => Magic(magic[i]))
  }

  predicate WellFormed(f: Flag)
  {
    '=' in f.text
  }

  function KeyOf(f: Flag): string
    requires WellFormed(f)
  {
    ParseField(f.text).value.key
  }

  function ValueOf(f: Flag): Value
    requires WellFormed(f)
  {
    var v := ParseField(f.text).value.value;
    if f.Raw? then Str(v) else MagicValue(v)
  }

  /** Reference meaning of a list of flags: the value of the last flag that
      sets `key`, if any. */
  function LastAssignment(fs: seq<Flag>, key: string): Option<Value>
    requires forall i :: 0 <= i < |fs| ==> WellFormed(fs[i])
  {
    if |fs| == 0 then None
    else if KeyOf(fs[|fs| - 1]) == key then Some(ValueOf(fs[|fs| - 1]))
    else LastAssignment(fs[..|fs| - 1], key)
  }

  /** A parameter map holds exactly the last assignment of every key. */
  ghost predicate Denotes(params: map<string, Value>, fs: seq<Flag>)
    requires forall i :: 0 <= i < |fs| ==> WellFormed(fs[i])
  {
    forall k :: LastAssignment(fs, k) == if k in params then Some(params[k]) else None
  }

  /** Position `i` holds the first field without '='. */
  predicate FirstMalformed(fs: seq<Flag>, i: int)
    requires 0 <= i < |fs|
  {
    !WellFormed(fs[i]) && forall j :: 0 <= j < i ==> WellFormed(fs[j])
  }

  lemma LastAssignmentStep(fs: seq<Flag>, i: nat, k: string)
    requires i < |fs|
    requires forall j :: 0 <= j <= i ==> WellFormed(fs[j])
    ensures LastAssignment(fs[..i + 1], k) ==
      if KeyOf(fs[i]) == k then Some(ValueOf(fs[i])) else LastAssignment(fs[..i], k)
  {
    assert fs[..i + 1][..i] == fs[..i];
  }

  /** One more flag processed: its key now holds its value. */
  lemma DenotesStep(params: map<string, Value>, fs: seq<Flag>, i: nat)
    requires i < |fs|
    requires forall j :: 0 <= j <= i ==> WellFormed(fs[j])
    requires Denotes(params, fs[..i])
    ensures Denotes(params[KeyOf(fs[i]) := ValueOf(fs[i])], fs[..i + 1])
  {
    var next := params[KeyOf(fs[i]) := ValueOf(fs[i])];
    forall k
      ensures LastAssignment(fs[..i + 1], k) == if k in next then Some(next[k]) else None
    {
      LastAssignmentStep(fs, i, k);
    }
  }

  /** parseFields: raw fields as plain strings, then magic fields with typed
      values, later assignments to a key replacing earlier ones; the first
      field without '=' stops it with its error. */
  method ParseFields(raw: seq<string>, magic: seq<string>) returns (r: Result<map<string, Value>, string>)
    ensures var fs := Flags(raw, magic);
      r.Ok? <==> forall i :: 0 <= i < |fs| ==> WellFormed(fs[i])
    ensures var fs := Flags(raw, magic);
      r.Ok? ==> Denotes(r.value, fs)
    ensures var fs := Flags(raw, magic);
      r.Err? ==> exists i :: 0 <= i < |fs| && FirstMalformed(fs, i) && r.error == FieldErrorMessage(fs[i].text)
  {
    r := ParseFlags(Flags(raw, magic));
  }

  /** The outcome parseFields promises: success exactly when every field has
      '=', then the last assignment of every key; otherwise the error of the
      first field without '='. */
  ghost predicate ParsedAs(fs: seq<Flag>, r: Result<map<string, Value>, string>)
  {
    && (r.Ok? <==> forall i :: 0 <= i < |fs| ==> WellFormed(fs[i]))
    && (r.Ok? ==> Denotes(r.value, fs))
    && (r.Err? ==> exists i :: 0 <= i < |fs| && FirstMalformed(fs, i) && r.error == FieldErrorMessage(fs[i].text))
  }

  lemma ParsedAsErr(fs: seq<Flag>, i: nat)
    requires i < |fs| && FirstMalformed(fs, i)
    ensures ParsedAs(fs, Err(FieldErrorMessage(fs[i].text)))
  {
  }

  lemma ParsedAsOk(fs: seq<Flag>, params: map<string, Value>, i: nat)
    requires i == |fs|
    requires forall j :: 0 <= j < i ==> WellFormed(fs[j])
    requires Denotes(params, fs[..i])
    ensures ParsedAs(fs, Ok(params))
  {
    assert fs[..i] == fs;
  }

  /** The loop of parseFields over the flags in processing order. */
  method ParseFlags(fs: seq<Flag>) returns (r: Result<map<string, Value>, string>)
    ensures ParsedAs(fs, r)
  {
    var params: map<string, Value> := map[];
    var i := 0;
    while i < |fs|
      invariant 0 <= i <= |fs|
      invariant forall j :: 0 <= j < i ==> WellFormed(fs[j])
      invariant Denotes(params, fs[..i])
    {
      var parsed := ParseField(fs[i].text);
      if parsed.Err? {
        assert FirstMalformed(fs, i);
        ParsedAsErr(fs, i);
        return Err(FieldErrorMessage(fs[i].text));
      }
      DenotesStep(params, fs, i);
      params := params[KeyOf(fs[i]) := ValueOf(fs[i])];
      i := i + 1;
    }
    ParsedAsOk(fs, params, i);
    return Ok(params);
  }

  /** The documented case: a later `-F key=...` overrides an earlier
      `-f key=...`. */
  lemma MagicOverridesRaw(key: string, a: string, b: string)
    requires '=' !in key
    ensures LastAssignment(Flags([key + "=" + a], [key + "=" + b]), key) == Some(MagicValue(b))
  {
    ParseFieldRoundTrip(key, b);
    var fs := Flags([key + "=" + a], [key + "=" + b]);
    assert fs[|fs| - 1] == Magic(key + "=" + b);
  }

  // ---------------------------------------------------------------- method

  /** The request method: POST when no method was passed explicitly and
      there are parameters or an input file; otherwise the given one. */
  function RequestMethod(given: string, passed: bool, paramCount: nat, inputFile: string): (m: string)
    ensures m == "POST" || m == given
    ensures !passed && (paramCount > 0 || inputFile != "") ==> m == "POST"
    ensures passed || (paramCount == 0 && inputFile == "") ==> m == given
  {
    if !passed && (paramCount > 0 || inputFile != "") then "POST" else given
  }

  /** With the flag's default "GET", the method is POST exactly when fields or
      an input file were given and no method was passed. */
  lemma DefaultMethod(passed: bool, paramCount: nat, inputFile: string)
    ensures RequestMethod("GET", passed, paramCount, inputFile) == "POST"
      <==> !passed && (paramCount > 0 || inputFile != "")
  {
  }

  /** Only whether there are parameters matters, not how many; and choosing
      the method a second time changes nothing. */
  lemma MethodDependsOnPresence(given: string, passed: bool, n1: nat, n2: nat, inputFile: string)
    requires n1 > 0 <==> n2 > 0
    ensures RequestMethod(given, passed, n1, inputFile) == RequestMethod(given, passed, n2, inputFile)
    ensures var m := RequestMethod(given, passed, n1, inputFile);
      RequestMethod(m, passed, n1, inputFile) == m
  {
  }

  // --------------------------------------------------------------- headers

  type Header = Sorting.Keyed<seq<string>>

  /** The headers that are listed: all but "Status". */
  function Listed(hs: seq<Header>): (r: seq<Header>)
    ensures forall h :: h in r <==> h in hs && h.key != "Status"
    ensures multiset(r) <= multiset(hs)
  {
    if |hs| == 0 then []
    else
      assert hs == [hs[0]] + hs[1..];
      var rest := Listed(hs[1..]);
      if hs[0].key == "Status" then rest else [hs[0]] + rest
  }

  /** One header line: the name (in color when asked), ": ", the values
      joined with ", ", and a CRLF. */
  function HeaderLine(h: Header, colorize: bool): (line: string)
    ensures Strings.HasSuffix(line, ": " + Strings.Join(h.val, ", ") + "\r\n")
    ensures !colorize ==> Strings.HasPrefix(line, h.key + ": ")
    ensures colorize ==> Strings.HasPrefix(line, "\U{1b}[1;34m" + h.key + "\U{1b}[m: ")
  {
    var color := if colorize then "\U{1b}[1;34m" else "";
    var reset := if colorize then "\U{1b}[m" else "";
    color + h.key + reset + ": " + Strings.Join(h.val, ", ") + "\r\n"
  }

  /** printHeaders: the headers (one enumeration of the response's header
      map) other than "Status", in ascending name order, one line each. */
  function PrintedHeaders(hs: seq<Header>): (r: seq<Header>)
    ensures Sorting.SortedByKey(r)
    ensures forall h :: h in r <==> h in hs && h.key != "Status"
    ensures multiset(r) <= multiset(hs)
  {
    var r := Sorting.SortByKey(Listed(hs));
    assert forall h :: h in r <==> h in multiset(r);
    r
  }

  /** The listing is empty exactly when there is no header but "Status",
      and otherwise starts with the line of the least header name. */
  function PrintHeaders(hs: seq<Header>, colorize: bool): (out: string)
    ensures out == "" <==> forall h :: h in hs ==> h.key == "Status"
    ensures PrintedHeaders(hs) != [] ==> Strings.HasPrefix(out, HeaderLine(PrintedHeaders(hs)[0], colorize))
  {
    var printed := PrintedHeaders(hs);
    assert printed != [] ==> printed[0] in printed;
    Lines(printed, colorize)
  }

  function Lines(hs: seq<Header>, colorize: bool): (out: string)
    ensures out == "" <==> hs == []
    ensures hs != [] ==> Strings.HasPrefix(out, HeaderLine(hs[0], colorize))
  {
    if |hs| == 0 then "" else HeaderLine(hs[0], colorize) + Lines(hs[1..], colorize)
  }

  /** The listing does not depend on the order the header map was enumerated in. */
  lemma PrintHeadersDeterministic(a: seq<Header>, b: seq<Header>, colorize: bool)
    requires Sorting.DistinctKeys(a)
    requires multiset(a) == multiset(b)
    ensures PrintHeaders(a, colorize) == PrintHeaders(b, colorize)
  {
    ListedPermutation(a, b);
    Sorting.DistinctKeysPermutation(a, b);
    ListedDistinct(a);
    Sorting.SortIndependentOfEnumeration(Listed(a), Listed(b));
  }

  lemma {:induction false} ListedPermutation(a: seq<Header>, b: seq<Header>)
    requires multiset(a) == multiset(b)
    ensures multiset(Listed(a)) == multiset(Listed(b))
  {
    ListedMultiset(a);
    ListedMultiset(b);
  }

  /** Listed keeps every non-Status header as often as it occurs. */
  lemma {:induction false} ListedMultiset(a: seq<Header>)
    ensures forall h :: multiset(Listed(a))[h] == if h.key == "Status" then 0 else multiset(a)[h]
    decreases |a|
  {
    if |a| > 0 {
      ListedMultiset(a[1..]);
      assert a == [a[0]] + a[1..];
    }
  }

  lemma {:induction false} ListedDistinct(a: seq<Header>)
    requires Sorting.DistinctKeys(a)
    ensures Sorting.DistinctKeys(Listed(a))
    decreases |a|
  {
    if |a| > 0 {
      var tail := a[1..];
      Sorting.DistinctKeysTail(a);
      ListedDistinct(tail);
      var l := Listed(tail);
      forall j | 0 <= j < |l|
        ensures l[j].key != a[0].key
      {
        assert l[j] in tail;
        var q :| 0 <= q < |tail| && tail[q] == l[j];
        assert a[q + 1] == l[j];
      }
      if a[0].key != "Status" {
        DistinctKeysCons(a[0], l);
      }
    }
  }

  lemma DistinctKeysCons(h: Header, l: seq<Header>)
    requires Sorting.DistinctKeys(l)
    requires forall j :: 0 <= j < |l| ==> l[j].key != h.key
    ensures Sorting.DistinctKeys([h] + l)
  {
    var r := [h] + l;
    forall i, j | 0 <= i < j < |r|
      ensures r[i].key != r[j].key
    {
      assert r[j] == l[j - 1];
      if i > 0 {
        assert r[i] == l[i - 1];
      }
    }
  }

  // ------------------------------------------------------- server errors

  /** The parts of a JSON error body parseErrorResponse looks at. */
  datatype ErrorBody = ErrorBody(message: string, errors: seq<string>)

  /** The message reported for an error response: the top-level message with
      the status code, else the error messages one per line, else nothing. */
  function ServerError(body: ErrorBody, status: int): (m: string)
    ensures body.message != "" ==> m == body.message + " (HTTP " + Decimal.FormatInt(status) + ")"
    ensures body.message == "" && |body.errors| > 0 ==> m == Strings.Join(body.errors, "\n")
    ensures body.message == "" && |body.errors| == 0 ==> m == ""
  {
    if body.message != "" then body.message + " (HTTP " + Decimal.FormatInt(status) + ")"
    else if |body.errors| > 0 then Strings.Join(body.errors, "\n")
    else ""
  }

  /** When no error message has a line break, the listed errors can be read
      back line by line. */
  lemma ServerErrorLines(errors: seq<string>, status: int)
    requires |errors| > 0
    requires forall i :: 0 <= i < |errors| ==> '\n' !in errors[i]
    ensures Strings.Split(ServerError(ErrorBody("", errors), status), '\n') == errors
  {
    Strings.SplitJoin(errors, '\n');
  }

  /** How apiRun ends once the response is in: `Failed` returns an error
      as it is, without writing a summary line. */
  datatype Exit = Success | NoContent | Silent(stderr: string) | Failed(err: string)

  /** The body is inspected only for JSON, and only for GraphQL or a status
      of 400 and up. */
  predicate Inspected(status: int, isJson: bool, isGraphql: bool)
  {
    isJson && (isGraphql || status >= 400)
  }

  /** The end of apiRun: 204 returns at once. An inspected body that cannot
      be read or decoded (`body` is then the error) returns that error. A
      server error message or a status above 299 prints a one-line summary
      and fails silently. */
  function RunExit(status: int, isJson: bool, isGraphql: bool, body: Result<ErrorBody, string>): (e: Exit)
    ensures e == NoContent <==> status == 204
    ensures e.Failed? <==> status != 204 && Inspected(status, isJson, isGraphql) && body.Err?
    ensures e.Failed? ==> e.err == body.error
    ensures status != 204 && !(Inspected(status, isJson, isGraphql) && body.Err?) ==>
      var msg := if Inspected(status, isJson, isGraphql) then ServerError(body.value, status) else "";
      (e.Silent? <==> msg != "" || status > 299)
    ensures e.Silent? && status >= 400 && isJson && body.Ok? && body.value.message != "" ==>
      e.stderr == "gh: " + body.value.message + " (HTTP " + Decimal.FormatInt(status) + ")\n"
  {
    if status == 204 then NoContent
    else if Inspected(status, isJson, isGraphql) && body.Err? then Failed(body.error)
    else
      var msg := if Inspected(status, isJson, isGraphql) then ServerError(body.value, status) else "";
      if msg != "" then Silent("gh: " + msg + "\n")
      else if status > 299 then Silent("gh: HTTP " + Decimal.FormatInt(status) + "\n")
      else Success
  }

  /** Any status above 299 fails whatever the body holds: with the body's
      decode error when an inspected body does not decode, otherwise silently
      after a one-line "gh: " summary. Only a status up to 299 can succeed. */
  lemma ErrorStatusFails(status: int, isJson: bool, isGraphql: bool, body: Result<ErrorBody, string>)
    ensures status > 299 && Inspected(status, isJson, isGraphql) && body.Err? ==>
      RunExit(status, isJson, isGraphql, body) == Failed(body.error)
    ensures status > 299 && !(Inspected(status, isJson, isGraphql) && body.Err?) ==>
      RunExit(status, isJson, isGraphql, body).Silent?
    ensures RunExit(status, isJson, isGraphql, body) == Success ==> status <= 299 && status != 204
    ensures RunExit(status, isJson, isGraphql, body).Silent? ==>
      var e := RunExit(status, isJson, isGraphql, body).stderr;
      Strings.HasPrefix(e, "gh: ") && Strings.HasSuffix(e, "\n")
  {
    var e := RunExit(status, isJson, isGraphql, body);
    if e.Silent? {
      var msg := if Inspected(status, isJson, isGraphql) then ServerError(body.value, status) else "";
      var rest := if msg != "" then msg else "HTTP " + Decimal.FormatInt(status);
      assert e.stderr == "gh: " + rest + "\n";
      assert e.stderr[..4] == "gh: ";
    }
  }

  /** The body is not looked at, nor whether it decodes, for a non-JSON
      response or a REST response below 400. */
  lemma BodyIgnoredUnlessInspected(status: int, isJson: bool, isGraphql: bool, a: Result<ErrorBody, string>, b: Result<ErrorBody, string>)
    requires !isJson || (!isGraphql && status < 400)
    ensures RunExit(status, isJson, isGraphql, a) == RunExit(status, isJson, isGraphql, b)
  {
  }
}
