/**
 * HttpLoggingFilter: which requests are logged, at which level, and the
 * helpers that render the client address, the headers and the bodies for
 * the log. The clock, the security context, the random sampling and the
 * logger itself are not modelled; the elapsed time and the status are
 * arguments.
 */
module HttpLogging {
  import opened Wrappers
  import opened JavaText

  /** Requests slower than this many milliseconds are logged at warn. */
  const SLOW_MS := 1000

  /** Bodies are cut to this many characters in the debug log. */
  const MAX_LOG_BYTES := 2048

  const SKIP_PREFIXES: seq<string> := ["/actuator", "/favicon", "/assets", "/static", "/webjars"]

  const SENSITIVE_HEADERS: seq<string> := ["authorization", "cookie", "set-cookie"]

  const BINARY_CONTENT_TYPES: seq<string> := ["application/octet-stream", "application/zip", "image/", "audio/", "video/"]

  /** The early-exit loop over a constant set of prefixes. */
  function AnyPrefix(s: string, prefixes: seq<string>): (r: bool)
    ensures r <==> exists i :: 0 <= i < |prefixes| && StartsWith(s, prefixes[i])
  {
    if prefixes == [] then false
    else StartsWith(s, prefixes[0]) || AnyPrefix(s, prefixes[1..])
  }

  /** shouldSkip: static resources and actuator endpoints are not logged. */
  function ShouldSkip(uri: string): (skip: bool)
    ensures skip <==> exists p :: p in SKIP_PREFIXES && StartsWith(uri, p)
  {
    AnyPrefix(uri, SKIP_PREFIXES)
  }

  /** Everything under a skipped prefix is skipped, whatever follows it. */
  lemma SkipsEverythingUnder(p: string, rest: string)
    requires p in SKIP_PREFIXES
    ensures ShouldSkip(p + rest)
  {
    ConcatEnds(p, rest);
  }

  /** The API itself is always logged. */
  lemma ApiIsLogged(rest: string)
    ensures !ShouldSkip("/api/" + rest)
  {
    var u := "/api/" + rest;
    assert u[1] == 'a' && u[2] == 'p';
    forall p | p in SKIP_PREFIXES ensures !StartsWith(u, p) {
      assert p[1] != 'a' || p[2] != 'p';
    }
  }

  /** The level of the one-line summary: none for skipped URIs, warn when slow or failed, else info. */
  datatype Level = Skipped | Info | Warn

  function SummaryLevel(uri: string, took: int, status: int): (l: Level)
    ensures l == Skipped <==> ShouldSkip(uri)
    ensures l == Warn <==> !ShouldSkip(uri) && (took > SLOW_MS || status >= 400)
  {
    if ShouldSkip(uri) then Skipped
    else if took > SLOW_MS || status >= 400 then Warn
    else Info
  }

  /** A request that is logged at warn stays at warn when it takes longer or fails worse. */
  lemma WarnIsMonotone(uri: string, took: int, status: int, took': int, status': int)
    requires SummaryLevel(uri, took, status) == Warn && took <= took' && status <= status'
    ensures SummaryLevel(uri, took', status') == Warn
  {
  }

  /** Every character is a comma. */
  predicate AllCommas(s: string) {
    forall i :: 0 <= i < |s| ==> s[i] == ','
  }

  /** The comma-separated fields of s, empty ones included: one more than there are commas. */
  function Fields(s: string): (r: seq<string>)
    ensures |r| >= 1
    ensures forall k :: 0 <= k < |r| ==> ',' !in r[k]
    ensures |r[0]| <= |s| && s[..|r[0]|] == r[0] && (|r[0]| == |s| || s[|r[0]|] == ',')
    ensures AllCommas(s) <==> forall k :: 0 <= k < |r| ==> r[k] == []
    decreases |s|
  {
    if s == [] then [""]
    else
      var rest := Fields(s[1..]);
      if s[0] == ',' then
        assert forall k :: 1 <= k < |rest| + 1 ==> ([""] + rest)[k] == rest[k - 1];
        assert forall i :: 0 <= i < |s| - 1 ==> s[1..][i] == s[i + 1];
        assert AllCommas(s) <==> AllCommas(s[1..]);
        var r := [""] + rest;
        assert (forall k :: 0 <= k < |r| ==> r[k] == []) <==> (forall k :: 0 <= k < |rest| ==> rest[k] == []) by {
          if forall k :: 0 <= k < |rest| ==> rest[k] == [] {
            forall k | 0 <= k < |r| ensures r[k] == [] {
              if k > 0 { assert r[k] == rest[k - 1]; }
            }
          }
          if forall k :: 0 <= k < |r| ==> r[k] == [] {
            forall k | 0 <= k < |rest| ensures rest[k] == [] {
              assert r[k + 1] == rest[k];
            }
          }
        }
        r
      else
        var head := [s[0]] + rest[0];
        assert forall k :: 1 <= k < |rest| ==> ([head] + rest[1..])[k] == rest[k];
        assert !AllCommas(s) by { assert s[0] != ','; }
        [head] + rest[1..]
  }

  /** The fields joined back with commas. */
  function JoinCommas(fields: seq<string>): string
    requires |fields| >= 1
  {
    if |fields| == 1 then fields[0] else fields[0] + "," + JoinCommas(fields[1..])
  }

  /** Splitting at the commas and joining again gives the string back. */
  lemma {:induction false} FieldsJoin(s: string)
    ensures JoinCommas(Fields(s)) == s
    decreases |s|
  {
    if s != [] {
      FieldsJoin(s[1..]);
      if s[0] == ',' {
        JoinAfterComma(s);
      } else {
        JoinAfterChar(s);
      }
    }
  }

  /** The step of FieldsJoin for a string that starts with a comma. */
  lemma JoinAfterComma(s: string)
    requires s != [] && s[0] == ',' && JoinCommas(Fields(s[1..])) == s[1..]
    ensures JoinCommas(Fields(s)) == s
  {
    var rest := Fields(s[1..]);
    assert Fields(s) == [""] + rest;
    assert Fields(s)[1..] == rest;
    assert JoinCommas(Fields(s)) == "" + "," + JoinCommas(rest);
    assert s == [s[0]] + s[1..];
  }

  /** The step of FieldsJoin for a string that starts with another character. */
  lemma JoinAfterChar(s: string)
    requires s != [] && s[0] != ',' && JoinCommas(Fields(s[1..])) == s[1..]
    ensures JoinCommas(Fields(s)) == s
  {
    var rest := Fields(s[1..]);
    assert Fields(s) == [[s[0]] + rest[0]] + rest[1..];
    JoinCons(s[0], rest);
    assert s == [s[0]] + s[1..];
  }

  /** A character put in front of the first field is put in front of the joined text. */
  lemma JoinCons(c: char, fields: seq<string>)
    requires |fields| >= 1
    ensures JoinCommas([[c] + fields[0]] + fields[1..]) == [c] + JoinCommas(fields)
  {
    var f := [[c] + fields[0]] + fields[1..];
    if |fields| > 1 {
      assert f[1..] == fields[1..];
      JoinStep(f);
      JoinStep(fields);
      PrependAssoc(c, fields[0], "," + JoinCommas(fields[1..]));
    }
  }

  /** One unfolding of JoinCommas. */
  lemma JoinStep(fields: seq<string>)
    requires |fields| > 1
    ensures JoinCommas(fields) == fields[0] + ("," + JoinCommas(fields[1..]))
  {
  }

  lemma PrependAssoc(c: char, a: string, b: string)
    ensures ([c] + a) + b == [c] + (a + b)
  {
  }

  /** Text without a comma is a single field. */
  lemma {:induction false} FieldsNoComma(s: string)
    requires ',' !in s
    ensures Fields(s) == [s]
    decreases |s|
  {
    if s != [] {
      assert s[0] in s;
      assert forall c :: c in s[1..] ==> c in s;
      FieldsNoComma(s[1..]);
      assert s == [s[0]] + s[1..];
    }
  }

  /** The trailing empty fields removed, as String.split does. */
  function DropTrailingEmpty(fields: seq<string>): (r: seq<string>)
    ensures |r| <= |fields| && r == fields[..|r|]
    ensures r == [] || r[|r| - 1] != []
    ensures forall k :: |r| <= k < |fields| ==> fields[k] == []
  {
    if fields != [] && fields[|fields| - 1] == [] then DropTrailingEmpty(fields[..|fields| - 1]) else fields
  }

  /** String.split(","): an empty string gives one empty field; otherwise trailing empty fields are dropped. */
  function JavaSplit(s: string): (r: seq<string>)
    ensures s == [] ==> r == [""]
    ensures s != [] ==> |r| <= |Fields(s)| && r == Fields(s)[..|r|] && (r == [] || r[|r| - 1] != [])
    ensures s != [] ==> forall k :: |r| <= k < |Fields(s)| ==> Fields(s)[k] == []
  {
    if s == [] then [s] else DropTrailingEmpty(Fields(s))
  }

  /** split(",") comes back empty exactly for a non-empty string of commas only; otherwise it starts with the first field. */
  lemma SplitShape(s: string)
    ensures JavaSplit(s) == [] <==> s != [] && AllCommas(s)
    ensures JavaSplit(s) != [] ==> JavaSplit(s)[0] == Fields(s)[0]
  {
    if s != [] {
      var f := Fields(s);
      var r := DropTrailingEmpty(f);
      if r == [] {
        assert forall k :: 0 <= k < |f| ==> f[k] == [];
      }
    }
  }

  /** clientIp as written: `split(",")[0]` throws on a forwarded-for header made of commas only. */
  function ClientIpAsWritten(forwardedFor: Option<string>, realIp: Option<string>, remoteAddr: string): (r: Result<string, string>)
    ensures r.Failure? <==> forwardedFor.Some? && forwardedFor.value != [] && AllCommas(forwardedFor.value)
  {
    assert forwardedFor.Some? && forwardedFor.value != [] && AllCommas(forwardedFor.value) ==> !IsBlank(forwardedFor.value) by {
      if forwardedFor.Some? && forwardedFor.value != [] && AllCommas(forwardedFor.value) {
        assert forwardedFor.value[0] == ',';
      }
    }
    if forwardedFor.Some? && !IsBlank(forwardedFor.value) then
      var parts := JavaSplit(forwardedFor.value);
      SplitShape(forwardedFor.value);
      if parts == [] then Failure("ArrayIndexOutOfBoundsException") else Success(Trim(parts[0]))
    else if realIp.Some? && !IsBlank(realIp.value) then Success(realIp.value)
    else Success(remoteAddr)
  }

  /** A forwarded-for header of a single comma is enough to make clientIp throw. */
  lemma CommaHeaderThrows(realIp: Option<string>, remoteAddr: string)
    ensures ClientIpAsWritten(Some(","), realIp, remoteAddr).Failure?
  {
  }

  /**
   * clientIp, corrected: the first hop of X-Forwarded-For (trimmed, empty
   * when the header starts with a comma) when that header is not blank,
   * else X-Real-IP when it is not blank, else the socket's remote address.
   */
  function ClientIp(forwardedFor: Option<string>, realIp: Option<string>, remoteAddr: string): (r: string)
    ensures forwardedFor.Some? && !IsBlank(forwardedFor.value) ==> ',' !in r && Trim(r) == r
    ensures forwardedFor.Some? && !IsBlank(forwardedFor.value) ==> r == Trim(Fields(forwardedFor.value)[0])
    ensures !(forwardedFor.Some? && !IsBlank(forwardedFor.value)) && realIp.Some? && !IsBlank(realIp.value) ==> r == realIp.value
    ensures !(forwardedFor.Some? && !IsBlank(forwardedFor.value)) && !(realIp.Some? && !IsBlank(realIp.value)) ==> r == remoteAddr
  {
    if forwardedFor.Some? && !IsBlank(forwardedFor.value) then
      var first := Fields(forwardedFor.value)[0];
      TrimIdempotent(first);
      assert Trim(first) == TrimEnd(TrimStart(first));
      assert forall i :: 0 <= i < |Trim(first)| ==> Trim(first)[i] in first by {
        assert TrimStart(first) == first[|first| - |TrimStart(first)|..];
        assert Trim(first) == TrimStart(first)[..|Trim(first)|];
        forall i | 0 <= i < |Trim(first)| ensures Trim(first)[i] in first {
          assert Trim(first)[i] == first[|first| - |TrimStart(first)| + i];
        }
      }
      Trim(first)
    else if realIp.Some? && !IsBlank(realIp.value) then realIp.value
    else remoteAddr
  }

  /** The corrected clientIp reports the left-most hop of the forwarded-for header. */
  lemma ClientIpIsFirstHop(first: string, rest: string, realIp: Option<string>, remoteAddr: string)
    requires ',' !in first && !IsBlank(first + "," + rest)
    ensures ClientIp(Some(first + "," + rest), realIp, remoteAddr) == Trim(first)
  {
    var h := first + "," + rest;
    var f := Fields(h)[0];
    assert h[..|first|] == first && h[|first|] == ',';
    assert f == first;
  }

  /** A forwarded-for header with a single hop gives that hop, trimmed. */
  lemma ClientIpSingleHop(hop: string, realIp: Option<string>, remoteAddr: string)
    requires ',' !in hop && !IsBlank(hop)
    ensures ClientIp(Some(hop), realIp, remoteAddr) == Trim(hop)
  {
    FieldsNoComma(hop);
  }

  /** Wherever clientIp as written returns, the corrected one returns the same. */
  lemma ClientIpAgrees(forwardedFor: Option<string>, realIp: Option<string>, remoteAddr: string)
    ensures ClientIpAsWritten(forwardedFor, realIp, remoteAddr).Success? ==>
              ClientIpAsWritten(forwardedFor, realIp, remoteAddr).value == ClientIp(forwardedFor, realIp, remoteAddr)
  {
    if forwardedFor.Some? {
      SplitShape(forwardedFor.value);
    }
  }

  /**
   * The summary line as written: a warn line evaluates clientIp, so a
   * slow or failed request with a comma-only forwarded-for header throws
   * out of the filter's finally block instead of being logged.
   */
  function SummaryAsWritten(uri: string, took: int, status: int, forwardedFor: Option<string>, realIp: Option<string>, remoteAddr: string): (r: Result<Level, string>)
    ensures r.Failure? <==> SummaryLevel(uri, took, status) == Warn && forwardedFor.Some? && forwardedFor.value != [] && AllCommas(forwardedFor.value)
    ensures r.Success? ==> r.value == SummaryLevel(uri, took, status)
  {
    var level := SummaryLevel(uri, took, status);
    if level == Warn then
      match ClientIpAsWritten(forwardedFor, realIp, remoteAddr)
      case Failure(e) => Failure(e)
      case Success(_) => Success(Warn)
    else Success(level)
  }

  /** A failing request whose proxy header is a single comma never gets its summary logged. */
  lemma FailedRequestWithCommaHeaderThrows(uri: string, took: int, realIp: Option<string>, remoteAddr: string)
    requires !ShouldSkip(uri)
    ensures SummaryAsWritten(uri, took, 500, Some(","), realIp, remoteAddr).Failure?
  {
  }

  /** The summary line with the corrected clientIp: always logged at its level, with the client address. */
  function Summary(uri: string, took: int, status: int, forwardedFor: Option<string>, realIp: Option<string>, remoteAddr: string): (r: (Level, Option<string>))
    ensures r.0 == SummaryLevel(uri, took, status)
    ensures r.1.Some? <==> r.0 == Warn
    ensures r.1.Some? ==> r.1.value == ClientIp(forwardedFor, realIp, remoteAddr)
  {
    var level := SummaryLevel(uri, took, status);
    (level, if level == Warn then Some(ClientIp(forwardedFor, realIp, remoteAddr)) else None)
  }

  /** Wherever the summary as written is logged, the corrected one logs the same level. */
  lemma SummaryAgrees(uri: string, took: int, status: int, forwardedFor: Option<string>, realIp: Option<string>, remoteAddr: string)
    ensures SummaryAsWritten(uri, took, status, forwardedFor, realIp, remoteAddr).Success? ==>
              SummaryAsWritten(uri, took, status, forwardedFor, realIp, remoteAddr).value == Summary(uri, took, status, forwardedFor, realIp, remoteAddr).0
    ensures Summary(uri, took, status, forwardedFor, realIp, remoteAddr).1.Some? ==>
              ClientIpAsWritten(forwardedFor, realIp, remoteAddr).Success? ==>
              ClientIpAsWritten(forwardedFor, realIp, remoteAddr).value == Summary(uri, took, status, forwardedFor, realIp, remoteAddr).1.value
  {
    ClientIpAgrees(forwardedFor, realIp, remoteAddr);
  }

  /** One request header: its name and its (first) value. */
  datatype Header = Header(name: string, value: string)

  /** SENSITIVE_HEADERS.contains(name.toLowerCase()) */
  predicate IsSensitive(name: string) {
    ToLower(name) in SENSITIVE_HEADERS
  }

  /** What safeHeaders shows for one header: its own name, and "***" in place of a sensitive value. */
  function Entry(h: Header): string {
    h.name + "=" + (if IsSensitive(h.name) then "***" else h.value) + " "
  }

  /** The builder's contents after the given headers. */
  function Joined(headers: seq<Header>): string {
    if headers == [] then "" else Joined(headers[..|headers| - 1]) + Entry(headers[|headers| - 1])
  }

  /** The entries of two runs of headers, one after the other. */
  lemma {:induction false} JoinedAppend(a: seq<Header>, b: seq<Header>)
    ensures Joined(a + b) == Joined(a) + Joined(b)
    decreases |b|
  {
    if b != [] {
      var b' := b[..|b| - 1];
      JoinedAppend(a, b');
      assert (a + b)[..|a + b| - 1] == a + b';
      assert (a + b)[|a + b| - 1] == b[|b| - 1];
    } else {
      assert a + b == a;
    }
  }

  /** Every header's entry appears, in order, between the entries of the ones before and after it. */
  lemma JoinedAt(headers: seq<Header>, k: nat)
    requires k < |headers|
    ensures Joined(headers) == Joined(headers[..k]) + Entry(headers[k]) + Joined(headers[k + 1..])
  {
    var pre, h, post := headers[..k], headers[k], headers[k + 1..];
    SplitAt(headers, k);
    JoinedAppend(pre + [h], post);
    JoinedAppend(pre, [h]);
    JoinedSingle(h);
  }

  lemma SplitAt(headers: seq<Header>, k: nat)
    requires k < |headers|
    ensures headers == (headers[..k] + [headers[k]]) + headers[k + 1..]
  {
  }

  lemma JoinedSingle(h: Header)
    ensures Joined([h]) == Entry(h)
  {
    assert [h][..0] == [];
  }

  /** A header whose name is sensitive in any letter case is shown by name with "***" for its value. */
  lemma SensitiveInAnyCase(headers: seq<Header>, k: nat)
    requires k < |headers| && ToLower(headers[k].name) in SENSITIVE_HEADERS
    ensures Joined(headers) == Joined(headers[..k]) + (headers[k].name + "=" + "***" + " ") + Joined(headers[k + 1..])
  {
    JoinedAt(headers, k);
  }

  /** safeHeaders: the entries of all headers in order, separated by spaces, trimmed. */
  method SafeHeaders(headers: seq<Header>) returns (r: string)
    ensures r == Trim(Joined(headers))
  {
    var sb := "";
    for i := 0 to |headers|
      invariant sb == Joined(headers[..i])
    {
      var h := headers[i];
      var shown := if IsSensitive(h.name) then "***" else h.value;
      assert headers[..i + 1][..i] == headers[..i];
      sb := sb + h.name + "=" + shown + " ";
    }
    assert headers[..|headers|] == headers;
    r := Trim(sb);
  }

  /** isBinary: a missing content type is not binary; otherwise a case-insensitive prefix test. */
  function IsBinary(contentType: Option<string>): (b: bool)
    ensures contentType.None? ==> !b
    ensures contentType.Some? ==>
              (b <==> StartsWith(ToLower(contentType.value), "multipart/")
                      || exists p :: p in BINARY_CONTENT_TYPES && StartsWith(ToLower(contentType.value), p))
  {
    if contentType.None? then false
    else
      var ct := ToLower(contentType.value);
      StartsWith(ct, "multipart/") || AnyPrefix(ct, BINARY_CONTENT_TYPES)
  }

  /** A content type that lower-cases to a binary prefix followed by anything (parameters included) is binary. */
  lemma BinaryWhateverFollows(contentType: string, p: string, rest: string)
    requires p == "multipart/" || p in BINARY_CONTENT_TYPES
    requires ToLower(contentType) == p + rest
    ensures IsBinary(Some(contentType))
  {
    ConcatEnds(p, rest);
  }

  /** safeTrim: null becomes "", a short string is kept, a long one is cut to max characters and marked with "...". */
  function SafeTrim(s: Option<string>, max: int): (r: string)
    requires max >= 0
    ensures s.None? ==> r == ""
    ensures s.Some? && |s.value| <= max ==> r == s.value
    ensures s.Some? && |s.value| > max ==> |r| == max + 3 && r[..max] == s.value[..max] && EndsWith(r, "...")
    ensures |r| <= max + 3
  {
    if s.None? then ""
    else if |s.value| <= max then s.value
    else
      ConcatEnds(s.value[..max], "...");
      s.value[..max] + "..."
  }
}
