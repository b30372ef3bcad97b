/** The URI parser and printer of uri.hpp. */
module Uri {

  const DEFAULT_PORT: nat := 80
  const DEFAULT_SECURE_PORT: nat := 443

  /** What a valid URI object holds. */
  datatype Parts = Parts(scheme: string, secure: bool, host: string, port: nat, resource: string)

  datatype Parse = Invalid | Valid(parts: Parts)

  function DefaultPort(secure: bool): nat {
    if secure then DEFAULT_SECURE_PORT else DEFAULT_PORT
  }

  predicate IsSecure(scheme: string) {
    scheme == "wss" || scheme == "https"
  }

  predicate KnownScheme(scheme: string) {
    scheme == "ws" || scheme == "wss" || scheme == "http" || scheme == "https"
  }

  // ---------------------------------------------------------------------------------------------
  // Decimal numbers: `atoi` and the stream output of a port
  // ---------------------------------------------------------------------------------------------

  predicate IsDigit(c: char) {
    48 <= c as int <= 57
  }

  predicate IsSpace(c: char) {
    c == ' ' || 9 <= c as int <= 13
  }

  function DigitValue(c: char): nat
    requires IsDigit(c)
  {
    c as int - 48
  }

  /** The value of the leading digits. */
  function LeadingDigits(s: string, acc: nat): nat {
    if s != "" && IsDigit(s[0]) then LeadingDigits(s[1..], 10 * acc + DigitValue(s[0])) else acc
  }

  /** What the digits after white space and a sign denote, before any limit of the integer type. */
  function Denotes(s: string): int {
    if s == "" then 0
    else if IsSpace(s[0]) then Denotes(s[1..])
    else if s[0] == '-' then 0 - LeadingDigits(s[1..], 0) as int
    else if s[0] == '+' then LeadingDigits(s[1..], 0)
    else LeadingDigits(s, 0)
  }

  /** A value of the host's 32-bit `int`. */
  type Int32 = n: int | -0x8000_0000 <= n < 0x8000_0000

  /** `atoi`, which promises nothing for numbers that do not fit an `int`: `other` is what it happens to return then. */
  function Atoi(s: string, other: Int32): Int32 {
    if -0x8000_0000 <= Denotes(s) < 0x8000_0000 then Denotes(s) else other
  }

  /** `get_port_from_string`; an error is `None` here. */
  datatype PortResult = NoPort | Port(port: nat)

  function PortFromString(port: string, secure: bool, other: Int32): PortResult {
    if port == "" then Port(DefaultPort(secure))
    else
      var t := Atoi(port, other) % 0x1_0000_0000;
      if t > 65535 || t == 0 then NoPort else Port(t)
  }

  function DigitChar(d: nat): char
    requires d < 10
  {
    (48 + d) as char
  }

  /** A number as a stream prints it. */
  function Decimal(n: nat): (s: string)
    ensures s != "" && forall i :: 0 <= i < |s| ==> IsDigit(s[i])
  {
    if n < 10 then [DigitChar(n)] else Decimal(n / 10) + [DigitChar(n % 10)]
  }

  lemma {:induction false} LeadingDigitsAppend(a: string, b: string, acc: nat)
    requires forall i :: 0 <= i < |a| ==> IsDigit(a[i])
    ensures LeadingDigits(a + b, acc) == LeadingDigits(b, LeadingDigits(a, acc))
    decreases |a|
  {
    if a == "" {
      assert a + b == b;
    } else {
      assert (a + b)[1..] == a[1..] + b;
      LeadingDigitsAppend(a[1..], b, 10 * acc + DigitValue(a[0]));
    }
  }

  lemma {:induction false} DigitsOfDecimal(n: nat)
    ensures LeadingDigits(Decimal(n), 0) == n
  {
    if n < 10 {
      assert [DigitChar(n)][1..] == "";
    } else {
      DigitsOfDecimal(n / 10);
      LeadingDigitsAppend(Decimal(n / 10), [DigitChar(n % 10)], 0);
      assert [DigitChar(n % 10)][1..] == "";
    }
  }

  /** A printed port is read back. */
  lemma PortRoundTrip(port: nat, secure: bool, other: Int32)
    requires port <= 65535
    ensures PortFromString(Decimal(port), secure, other) == if port == 0 then NoPort else Port(port)
  {
    DigitsOfDecimal(port);
    var s := Decimal(port);
    assert IsDigit(s[0]);
    assert Denotes(s) == port;
  }

  // ---------------------------------------------------------------------------------------------
  // The grammar the parser accepts
  // ---------------------------------------------------------------------------------------------

  /** The first place at which one of two characters stands, or the end. */
  function UpTo(s: string, a: char, b: char): (k: nat)
    ensures k <= |s|
    ensures forall i :: 0 <= i < k ==> s[i] != a && s[i] != b
    ensures k < |s| ==> s[k] == a || s[k] == b
  {
    if s == "" || s[0] == a || s[0] == b then 0 else 1 + UpTo(s[1..], a, b)
  }

  /** The length of the scheme and its "://"; a scheme counts only when something follows it. */
  function SchemeLength(s: string): nat {
    if |s| >= 7 && s[..6] == "wss://" then 6
    else if |s| >= 6 && s[..5] == "ws://" then 5
    else if |s| >= 8 && s[..7] == "http://" then 7
    else if |s| >= 9 && s[..8] == "https://" then 8
    else 0
  }

  lemma SchemeFits(s: string)
    ensures SchemeLength(s) == 0 || 3 <= SchemeLength(s) < |s|
    ensures SchemeLength(s) != 0 ==> KnownScheme(s[..SchemeLength(s) - 3]) && s[SchemeLength(s) - 3..SchemeLength(s)] == "://"
  {
    if |s| >= 7 && s[..6] == "wss://" {
      assert s[..3] == s[..6][..3] && s[3..6] == s[..6][3..];
    } else if |s| >= 6 && s[..5] == "ws://" {
      assert s[..2] == s[..5][..2] && s[2..5] == s[..5][2..];
    } else if |s| >= 8 && s[..7] == "http://" {
      assert s[..4] == s[..7][..4] && s[4..7] == s[..7][4..];
    } else if |s| >= 9 && s[..8] == "https://" {
      assert s[..5] == s[..8][..5] && s[5..8] == s[..8][5..];
    }
  }

  /** What follows the host: ":" and a port up to "/" or the end, then the rest of the resource. */
  function ParseTail(scheme: string, host: string, tail: string, other: Int32): Parse {
    var colon := tail != "" && tail[0] == ':';
    var slash := UpTo(tail, '/', '/');
    var port := if colon then tail[1..slash] else "";
    var resource := "/" + (if slash < |tail| then tail[slash + 1..] else "");
    match PortFromString(port, IsSecure(scheme), other)
    case NoPort => Invalid
    case Port(p) => Valid(Parts(scheme, IsSecure(scheme), host, p, resource))
  }

  /** The host is in brackets, or it runs up to the first ":" or "/". */
  function ParseRest(scheme: string, rest: string, other: Int32): Parse
    requires rest != ""
  {
    if rest[0] == '[' then
      var k := UpTo(rest, ']', ']');
      if k == |rest| then Invalid
      else
        var tail := rest[k + 1..];
        if tail == "" || tail[0] == '/' || tail[0] == ':' then ParseTail(scheme, rest[1..k], tail, other) else Invalid
    else
      var k := UpTo(rest, '/', ':');
      ParseTail(scheme, rest[..k], rest[k..], other)
  }

  function ParseUri(s: string, other: Int32): Parse {
    var n := SchemeLength(s);
    if n == 0 then Invalid
    else
      SchemeFits(s);
      ParseRest(s[..n - 3], s[n..], other)
  }

  /** `str`. */
  function PortSuffix(p: Parts): string {
    if p.port != DefaultPort(p.secure) then ":" + Decimal(p.port) else ""
  }

  function Str(p: Parts): string {
    p.scheme + "://" + p.host + PortSuffix(p) + p.resource
  }

  // ---------------------------------------------------------------------------------------------
  // When printing and parsing again gives the same URI
  // ---------------------------------------------------------------------------------------------

  /** A host that the parser, reading on from the scheme, finds whole. */
  predicate CleanHost(host: string) {
    && (forall i :: 0 <= i < |host| ==> host[i] != '/' && host[i] != ':')
    && (host != "" ==> host[0] != '[')
  }

  predicate Printable(p: Parts) {
    && KnownScheme(p.scheme)
    && 1 <= p.port <= 65535
    && CleanHost(p.host)
    && p.resource != "" && p.resource[0] == '/'
  }

  lemma {:induction false} UpToIs(s: string, a: char, b: char, k: nat)
    requires k <= |s| && (forall i :: 0 <= i < k ==> s[i] != a && s[i] != b) && (k < |s| ==> s[k] == a || s[k] == b)
    ensures UpTo(s, a, b) == k
    decreases |s|
  {}

  lemma SchemeOfStr(scheme: string, rest: string)
    requires KnownScheme(scheme) && rest != ""
    ensures var s := scheme + "://" + rest;
            SchemeLength(s) == |scheme| + 3 && s[..|scheme|] == scheme && s[|scheme| + 3..] == rest
  {
    var s := scheme + "://" + rest;
    assert s[..|scheme| + 3] == scheme + "://";
    assert s[|scheme|] == ':';
    if scheme == "ws" {
      assert s[..6][2] == ':';
      assert s[..5] == "ws://";
    } else if scheme == "wss" {
      assert s[..6] == "wss://";
    } else if scheme == "http" {
      assert s[..7] == "http://" && s[0] == 'h' && s[..6][0] == 'h' && s[..5][0] == 'h';
    } else {
      assert s[..8] == "https://" && s[0] == 'h' && s[..6][0] == 'h' && s[..5][0] == 'h';
      assert s[..7][4] == 's';
    }
  }

  lemma TailSplits(scheme: string, host: string, text: string, path: string, other: Int32)
    requires '/' !in text && (text != "" ==> text[0] == ':') && (path == "" || path[0] == '/')
    ensures ParseTail(scheme, host, text + path, other) ==
            match PortFromString(if text != "" then text[1..] else "", IsSecure(scheme), other)
            case NoPort => Invalid
            case Port(p) => Valid(Parts(scheme, IsSecure(scheme), host, p, if path == "" then "/" else path))
  {
    hide PortFromString, IsSecure, UpTo;
    var tail := text + path;
    UpToIs(tail, '/', '/', |text|);
    if path != "" {
      assert tail[|text| + 1..] == path[1..];
      assert "/" + path[1..] == path;
    }
    if text != "" {
      assert tail[1..|text|] == text[1..];
    }
  }

  /** The port suffix and the resource are read back. */
  lemma TailOfStr(p: Parts, host: string, other: Int32)
    requires 1 <= p.port <= 65535 && p.resource != "" && p.resource[0] == '/' && p.secure == IsSecure(p.scheme)
    ensures ParseTail(p.scheme, host, PortSuffix(p) + p.resource, other) == Valid(p.(host := host))
  {
    PortRoundTrip(p.port, p.secure, other);
    hide ParseTail, IsSecure;
    TailSplits(p.scheme, host, PortSuffix(p), p.resource, other);
    if p.port != DefaultPort(p.secure) {
      assert PortSuffix(p)[1..] == Decimal(p.port);
    }
  }

  lemma StrSplits(p: Parts)
    ensures Str(p) == p.scheme + "://" + (p.host + (PortSuffix(p) + p.resource))
  {}

  /** Every printable URI is read back exactly. */
  lemma PrintableRoundTrips(p: Parts, other: Int32)
    requires Printable(p) && p.secure == IsSecure(p.scheme)
    ensures ParseUri(Str(p), other) == Valid(p)
  {
    var tail := PortSuffix(p) + p.resource;
    var rest := p.host + tail;
    StrSplits(p);
    assert tail[0] == '/' || tail[0] == ':';
    hide Str, ParseTail, PortSuffix, SchemeLength, UpTo, IsSecure, KnownScheme;
    SchemeOfStr(p.scheme, rest);
    UpToIs(rest, '/', ':', |p.host|);
    assert rest[..|p.host|] == p.host && rest[|p.host|..] == tail;
    TailOfStr(p, p.host, other);
  }

  lemma ParsedTail(scheme: string, host: string, tail: string, other: Int32)
    requires ParseTail(scheme, host, tail, other).Valid?
    ensures var p := ParseTail(scheme, host, tail, other).parts;
            && p.scheme == scheme && p.host == host && p.secure == IsSecure(scheme)
            && 1 <= p.port <= 65535 && p.resource != "" && p.resource[0] == '/'
  {}

  lemma ParsedRest(scheme: string, rest: string, other: Int32)
    requires rest != "" && ParseRest(scheme, rest, other).Valid?
    ensures var p := ParseRest(scheme, rest, other).parts;
            && p.scheme == scheme && p.secure == IsSecure(scheme)
            && 1 <= p.port <= 65535 && p.resource != "" && p.resource[0] == '/'
            && (rest[0] != '[' ==> CleanHost(p.host))
            && (rest[0] == '[' ==>
                  UpTo(rest, ']', ']') < |rest| && p.host == rest[1..UpTo(rest, ']', ']')])
  {
    hide ParseTail, KnownScheme;
    var k := UpTo(rest, if rest[0] == '[' then ']' else '/', if rest[0] == '[' then ']' else ':');
    if rest[0] == '[' {
      if k < |rest| {
        ParsedTail(scheme, rest[1..k], rest[k + 1..], other);
      }
    } else {
      ParsedTail(scheme, rest[..k], rest[k..], other);
    }
  }

  /** What a valid parse always gives. */
  lemma ParsedParts(s: string, other: Int32)
    requires ParseUri(s, other).Valid?
    ensures var p := ParseUri(s, other).parts;
            && KnownScheme(p.scheme) && p.secure == IsSecure(p.scheme)
            && 1 <= p.port <= 65535 && p.resource != "" && p.resource[0] == '/'
    ensures SchemeLength(s) < |s|
    ensures s[SchemeLength(s)] != '[' ==> CleanHost(ParseUri(s, other).parts.host)
  {
    hide ParseRest, KnownScheme, SchemeLength;
    SchemeFits(s);
    var n := SchemeLength(s);
    ParsedRest(s[..n - 3], s[n..], other);
  }

  /** What stands in brackets after the scheme is never the text from the first bracket on. */
  lemma BracketNeverComesBack(host: string, after: string)
    requires host != "" && host[0] == '[' && after != "" && after[0] != '['
    ensures var rest := host + after;
            var k := UpTo(rest, ']', ']');
            k < |rest| ==> rest[1..k] != host
  {
    var rest := host + after;
    var k := UpTo(rest, ']', ']');
    if k < |rest| && rest[1..k] == host {
      AllBrackets(rest, |host|, |host|);
    }
  }

  /** If a string shifted by one place starts like itself, and it starts with a bracket, it goes on with brackets. */
  lemma {:induction false} AllBrackets(rest: string, n: nat, i: nat)
    requires i <= n < |rest| && rest[0] == '['
    requires forall j :: 0 <= j < n ==> rest[j + 1] == rest[j]
    ensures rest[i] == '['
    decreases i
  {
    if i > 0 {
      AllBrackets(rest, n, i - 1);
      assert rest[i - 1 + 1] == rest[i - 1];
    }
  }

  /**
   * Exactly the printable URIs survive printing and parsing: for any parts at all, with the secure flag that goes with
   * the scheme, parsing what `str` prints gives the same parts if and only if the scheme is known, the port is not zero,
   * the resource starts with a slash and the host has no slash, no colon and no bracket in front.
   */
  lemma RoundTripIffPrintable(p: Parts, other: Int32)
    requires p.port <= 65535 && p.secure == IsSecure(p.scheme)
    ensures ParseUri(Str(p), other) == Valid(p) <==> Printable(p)
  {
    if Printable(p) {
      PrintableRoundTrips(p, other);
    }
    if ParseUri(Str(p), other) == Valid(p) {
      RoundTripNeedsPrintable(p, other);
    }
  }

  lemma RoundTripNeedsPrintable(p: Parts, other: Int32)
    requires p.secure == IsSecure(p.scheme) && ParseUri(Str(p), other) == Valid(p)
    ensures Printable(p)
  {
    var s := Str(p);
    ParsedParts(s, other);
    var after := PortSuffix(p) + p.resource;
    StrSplits(p);
    SchemeOfStr(p.scheme, p.host + after);
    var rest := s[|p.scheme| + 3..];
    assert rest == p.host + after;
    if rest[0] == '[' {
      ParsedRest(p.scheme, rest, other);
      BracketNeverComesBack(p.host, after);
    }
  }

  /** Hence printing what was parsed is stable: for every string parsed as valid whose host is not in brackets. */
  lemma ParsePrintParse(s: string, other: Int32)
    requires ParseUri(s, other).Valid?
    ensures var p := ParseUri(s, other).parts;
            && (s[SchemeLength(s)..] != "" && s[SchemeLength(s)] != '[' ==> ParseUri(Str(p), other) == Valid(p))
            && (ParseUri(Str(p), other) == Valid(p) <==> CleanHost(p.host))
  {
    ParsedParts(s, other);
    RoundTripIffPrintable(ParseUri(s, other).parts, other);
  }

  /** A bracketed address is a valid URI that does not survive: `str` leaves the brackets out. */
  lemma BracketedAddressIsLost(other: Int32)
    ensures var s := "ws://[::1]/";
            && ParseUri(s, other) == Valid(Parts("ws", false, "::1", 80, "/"))
            && ParseUri(Str(Parts("ws", false, "::1", 80, "/")), other) != ParseUri(s, other)
  {
    hide UpTo, Str, SchemeLength, Atoi;
    var s, rest := "ws://[::1]/", "[::1]/";
    var p := Parts("ws", false, "::1", 80, "/");
    assert s == "ws" + "://" + rest;
    SchemeOfStr("ws", rest);
    assert ParseRest("ws", rest, other) == Valid(p) by {
      UpToIs(rest, ']', ']', 4);
      UpToIs("/", '/', '/', 0);
      assert rest[1..4] == "::1" && rest[5..] == "/" && "/" + "/"[1..] == "/";
    }
    assert !CleanHost(p.host) by {
      assert p.host[0] == ':';
    }
    RoundTripIffPrintable(p, other);
    hide ParseRest, CleanHost;
  }

  // ---------------------------------------------------------------------------------------------
  // The grammar, spelled out
  // ---------------------------------------------------------------------------------------------

  /** The text of a port: nothing, a colon alone, or a colon and a number. */
  function PortText(colon: bool, port: nat): string {
    if !colon then "" else if port == 0 then ":" else ":" + Decimal(port)
  }

  lemma PortTextIsRead(colon: bool, port: nat, secure: bool, other: Int32)
    requires port <= 65535 && (port != 0 ==> colon)
    ensures var text := PortText(colon, port);
            && '/' !in text && (colon <==> text != "") && (colon ==> text[0] == ':')
            && PortFromString(if colon then text[1..] else "", secure, other) ==
               Port(if port != 0 then port else if secure then 443 else 80)
  {
    if port != 0 {
      PortRoundTrip(port, secure, other);
      assert PortText(colon, port)[1..] == Decimal(port);
    }
  }

  /** The part of a URI after the host: a missing port is 443 for the secure schemes and 80 for the others. */
  lemma TailIsParsed(scheme: string, host: string, colon: bool, port: nat, path: string, other: Int32)
    requires port <= 65535 && (port != 0 ==> colon) && (path == "" || path[0] == '/')
    ensures ParseTail(scheme, host, PortText(colon, port) + path, other) ==
            Valid(Parts(scheme, scheme == "wss" || scheme == "https", host,
                        if port != 0 then port else if scheme == "wss" || scheme == "https" then 443 else 80,
                        if path == "" then "/" else path))
  {
    hide PortText, PortFromString, ParseTail;
    PortTextIsRead(colon, port, IsSecure(scheme), other);
    TailSplits(scheme, host, PortText(colon, port), path, other);
  }

  /** The text of a host. */
  function HostText(bracketed: bool, host: string): string {
    if bracketed then "[" + host + "]" else host
  }

  lemma RestIsParsed(scheme: string, bracketed: bool, host: string, tail: string, other: Int32)
    requires tail == "" || tail[0] == '/' || tail[0] == ':'
    requires bracketed ==> ']' !in host
    requires !bracketed ==> '/' !in host && ':' !in host && (host != "" ==> host[0] != '[') && host + tail != ""
    ensures ParseRest(scheme, HostText(bracketed, host) + tail, other) == ParseTail(scheme, host, tail, other)
  {
    hide ParseTail;
    var rest := HostText(bracketed, host) + tail;
    if bracketed {
      var k := 1 + |host|;
      UpToIs(rest, ']', ']', k);
      assert rest[1..k] == host && rest[k + 1..] == tail;
    } else {
      UpToIs(rest, '/', ':', |host|);
      assert rest[..|host|] == host && rest[|host|..] == tail;
    }
  }

  /**
   * Every URI of the form scheme "://" host [":" port] [path], the host plain or in brackets, is parsed into exactly these
   * parts: a missing port is 443 for wss and https and 80 for ws and http, a missing path is "/".
   */
  lemma UriIsParsed(scheme: string, bracketed: bool, host: string, colon: bool, port: nat, path: string, other: Int32)
    requires scheme == "ws" || scheme == "wss" || scheme == "http" || scheme == "https"
    requires bracketed ==> ']' !in host
    requires !bracketed ==> '/' !in host && ':' !in host && (host != "" ==> host[0] != '[')
    requires port <= 65535 && (port != 0 ==> colon) && (path == "" || path[0] == '/')
    requires HostText(bracketed, host) + PortText(colon, port) + path != ""
    ensures ParseUri(scheme + "://" + (HostText(bracketed, host) + (PortText(colon, port) + path)), other) ==
            Valid(Parts(scheme, scheme == "wss" || scheme == "https", host,
                        if port != 0 then port else if scheme == "wss" || scheme == "https" then 443 else 80,
                        if path == "" then "/" else path))
  {
    var tail := PortText(colon, port) + path;
    assert tail == "" || tail[0] == '/' || tail[0] == ':';
    assert !bracketed ==> host + tail == HostText(bracketed, host) + PortText(colon, port) + path;
    var rest := HostText(bracketed, host) + tail;
    assert |rest| == |HostText(bracketed, host) + PortText(colon, port) + path|;
    hide HostText, PortText, ParseRest, ParseTail, SchemeLength;
    SchemeOfStr(scheme, rest);
    hide KnownScheme, IsSecure;
    RestIsParsed(scheme, bracketed, host, tail, other);
    TailIsParsed(scheme, host, colon, port, path, other);
  }

  /** Nothing else than the four schemes is accepted, and something must follow them. */
  lemma OtherSchemesAreRefused(s: string, other: Int32)
    requires !("ws://" < s) && !("wss://" < s) && !("http://" < s) && !("https://" < s)
    ensures ParseUri(s, other) == Invalid
  {}

  /** A bracket that is not closed, or is followed by anything but a port, a path or the end, is refused. */
  lemma BadBracketsAreRefused(scheme: string, host: string, tail: string, other: Int32)
    requires KnownScheme(scheme) && ']' !in host
    ensures ParseUri(scheme + "://" + ("[" + host), other) == Invalid
    ensures tail != "" && tail[0] != '/' && tail[0] != ':' ==>
              ParseUri(scheme + "://" + ("[" + host + "]" + tail), other) == Invalid
  {
    hide ParseTail, SchemeLength, KnownScheme;
    var open := "[" + host;
    SchemeOfStr(scheme, open);
    UpToIs(open, ']', ']', |open|);
    var rest := "[" + host + "]" + tail;
    SchemeOfStr(scheme, rest);
    UpToIs(rest, ']', ']', 1 + |host|);
    assert rest[1 + |host| + 1..] == tail;
  }

  /** Numbers that are no port are refused, with or without a sign. */
  lemma BadPortsAreRefused(n: nat, secure: bool, other: Int32)
    requires n < 0x8000_0000
    ensures n > 65535 ==> PortFromString(Decimal(n), secure, other) == NoPort
    ensures PortFromString("-" + Decimal(n), secure, other) == NoPort
  {
    DigitsOfDecimal(n);
    var s := Decimal(n);
    assert IsDigit(s[0]);
    assert Denotes(s) == n;
    assert ("-" + s)[1..] == s;
    assert Denotes("-" + s) == 0 - n;
  }

  /** As `atoi` does, leading white space and a plus sign are passed over, and reading stops at the first other character. */
  lemma PortsAreReadLoosely(n: nat, space: char, after: string, secure: bool, other: Int32)
    requires n < 0x8000_0000 && (after != "" ==> !('0' <= after[0] <= '9')) && (space == ' ' || 9 <= space as int <= 13)
    ensures PortFromString(Decimal(n) + after, secure, other) == PortFromString(Decimal(n), secure, other)
    ensures PortFromString("+" + Decimal(n), secure, other) == PortFromString(Decimal(n), secure, other)
    ensures PortFromString([space] + Decimal(n), secure, other) == PortFromString(Decimal(n), secure, other)
  {
    DigitsOfDecimal(n);
    var s := Decimal(n);
    assert IsDigit(s[0]);
    assert Denotes(s) == n;
    LeadingDigitsAppend(s, after, 0);
    assert (s + after)[0] == s[0];
    assert Denotes(s + after) == n;
    assert ("+" + s)[1..] == s && Denotes("+" + s) == n;
    assert ([space] + s)[1..] == s && Denotes([space] + s) == n;
  }

  /** A printed number has no leading zero. */
  lemma {:induction false} DecimalIsShortest(n: nat)
    requires n > 0
    ensures Decimal(n)[0] != '0'
  {
    if n >= 10 {
      DecimalIsShortest(n / 10);
    }
  }

  /** A default port is not printed, any other port is. */
  lemma DefaultPortIsSilent(p: Parts)
    ensures (p.port == if p.secure then 443 else 80) ==> Str(p) == p.scheme + "://" + p.host + p.resource
    ensures (p.port != if p.secure then 443 else 80) ==>
              Str(p) == p.scheme + "://" + p.host + ":" + Decimal(p.port) + p.resource
  {}

  // ---------------------------------------------------------------------------------------------
  // The code
  // ---------------------------------------------------------------------------------------------

  /** The search for the closing bracket. */
  method FindBracket(s: string, from: nat) returns (temp: nat)
    requires from <= |s|
    ensures temp == from + UpTo(s[from..], ']', ']')
  {
    temp := from;
    while temp != |s|
      invariant from <= temp <= |s|
      invariant forall i :: from <= i < temp ==> s[i] != ']'
    {
      if s[temp] == ']' {
        break;
      }
      temp := temp + 1;
    }
    UpToIs(s[from..], ']', ']', temp - from);
  }

  /** Reads a host up to ":" or "/" and steps over it; state 1 when a port follows, 2 when none does. */
  method ReadHost(s: string, from: nat) returns (host: string, it: nat, state: int)
    requires from <= |s|
    ensures var k := from + UpTo(s[from..], '/', ':');
            && host == s[from..k]
            && it == (if k < |s| then k + 1 else k)
            && state == (if k < |s| && s[k] == ':' then 1 else 2)
  {
    host, it, state := "", from, 0;
    while state == 0
      invariant from <= it <= |s|
      invariant state == 0 ==> host == s[from..it] && forall i :: from <= i < it ==> s[i] != '/' && s[i] != ':'
      invariant state != 0 ==>
                  && from < it && host == s[from..it - 1]
                  && (forall i :: from <= i < it - 1 ==> s[i] != '/' && s[i] != ':')
                  && (s[it - 1] == '/' || s[it - 1] == ':') && state == if s[it - 1] == ':' then 1 else 2
      decreases |s| - it + (if state == 0 then 1 else 0)
    {
      if it == |s| {
        state := 2;
        break;
      } else if s[it] == '/' {
        state := 2;
      } else if s[it] == ':' {
        state := 1;
      } else {
        host := host + [s[it]];
      }
      it := it + 1;
    }
    UpToIs(s[from..], '/', ':', |host|);
  }

  /** Reads a port up to "/" and steps over it. */
  method ReadPort(s: string, from: nat) returns (port: string, it: nat)
    requires from <= |s|
    ensures var k := from + UpTo(s[from..], '/', '/');
            port == s[from..k] && it == if k < |s| then k + 1 else k
  {
    port, it := "", from;
    var state := 1;
    while state == 1
      invariant from <= it <= |s| && (state == 1 || state == 3)
      invariant state == 1 ==> port == s[from..it] && forall i :: from <= i < it ==> s[i] != '/'
      invariant state == 3 ==>
                  from < it && port == s[from..it - 1] && s[it - 1] == '/' && forall i :: from <= i < it - 1 ==> s[i] != '/'
      decreases |s| - it + (if state == 1 then 1 else 0)
    {
      if it == |s| {
        break;
      } else if s[it] == '/' {
        state := 3;
      } else {
        port := port + [s[it]];
      }
      it := it + 1;
    }
    UpToIs(s[from..], '/', '/', |port|);
  }

  /** The parsing constructor's code; a `return` before the end leaves the object invalid. */
  method ParseString(uriString: string, other: Int32) returns (r: Parse)
    ensures r == ParseUri(uriString, other)
  {
    var secure, scheme, it := false, "", 0;
    var uriLen := |uriString|;
    if uriLen >= 7 && uriString[..6] == "wss://" {
      secure, scheme, it := true, "wss", 6;
    } else if uriLen >= 6 && uriString[..5] == "ws://" {
      secure, scheme, it := false, "ws", 5;
    } else if uriLen >= 8 && uriString[..7] == "http://" {
      secure, scheme, it := false, "http", 7;
    } else if uriLen >= 9 && uriString[..8] == "https://" {
      secure, scheme, it := true, "https", 8;
    } else {
      return Invalid;
    }
    SchemeTaken(uriString, scheme, it);
    hide SchemeLength, UpTo, PortFromString, ParseRest;
    r := ParseAfterScheme(uriString, scheme, secure, it, other);
  }

  lemma SchemeTaken(s: string, scheme: string, it: nat)
    requires KnownScheme(scheme) && it == |scheme| + 3 < |s| && s[..it] == scheme + "://"
    ensures SchemeLength(s) == it && s[..it - 3] == scheme
  {
    assert s == scheme + "://" + s[it..];
    SchemeOfStr(scheme, s[it..]);
  }

  /** Whether `tail` begins the part after the host and `it`, `state` are where reading it has got to. */
  predicate AfterHost(s: string, tail: nat, it: nat, state: int) {
    && tail <= it <= |s|
    && (state == 1 ==> tail < |s| && s[tail] == ':' && it == tail + 1)
    && (state != 1 ==> if tail == |s| then it == tail else s[tail] == '/' && it == tail + 1)
  }

  method ParseAfterScheme(uriString: string, scheme: string, secure: bool, from: nat, other: Int32) returns (r: Parse)
    requires from < |uriString| && secure == IsSecure(scheme)
    ensures r == ParseRest(scheme, uriString[from..], other)
  {
    hide UpTo, ParseTail;
    ghost var rest := uriString[from..];
    var host, it, state := "", from, 0;
    ghost var tail := from;
    if uriString[it] == '[' {
      it := it + 1;
      var temp := FindBracket(uriString, it);
      BracketPlace(uriString, from);
      if temp == |uriString| {
        return Invalid;
      }
      host := uriString[it..temp];
      it := temp + 1;
      tail := it;
      assert host == rest[1..temp - from] && uriString[it..] == rest[temp - from + 1..];
      if it == |uriString| {
        state := 2;
      } else if uriString[it] == '/' {
        state := 2;
        it := it + 1;
      } else if uriString[it] == ':' {
        state := 1;
        it := it + 1;
      } else {
        return Invalid;
      }
    } else {
      host, it, state := ReadHost(uriString, it);
      tail := from + |host|;
      assert host == rest[..|host|] && uriString[tail..] == rest[|host|..];
    }
    r := FinishParse(uriString, scheme, secure, host, it, state, other, tail);
  }

  /** Port and resource, from the character after the host on. */
  method FinishParse(uriString: string, scheme: string, secure: bool, host: string, from: nat, state: int, other: Int32,
                     ghost tail: nat) returns (r: Parse)
    requires AfterHost(uriString, tail, from, state) && secure == IsSecure(scheme)
    ensures r == ParseTail(scheme, host, uriString[tail..], other)
  {
    hide UpTo, Atoi;
    ghost var t := uriString[tail..];
    var port, it := "", from;
    if state == 1 {
      port, it := ReadPort(uriString, it);
      ColonPlace(uriString, tail);
      assert port == t[1..UpTo(t, '/', '/')];
    } else {
      SlashPlace(uriString, tail);
    }
    var p := GetPortFromString(port, secure, other);
    if p.NoPort? {
      return Invalid;
    }
    var resource := "/";
    resource := resource + uriString[it..];
    r := Valid(Parts(scheme, secure, host, p.port, resource));
    assert UpTo(t, '/', '/') < |t| ==> uriString[it..] == t[UpTo(t, '/', '/') + 1..];
  }

  method GetPortFromString(port: string, secure: bool, other: Int32) returns (r: PortResult)
    ensures r == PortFromString(port, secure, other)
  {
    if port == "" {
      return Port(if secure then DEFAULT_SECURE_PORT else DEFAULT_PORT);
    }
    var t := Atoi(port, other) % 0x1_0000_0000;
    var failed := false;
    if t > 65535 {
      failed := true;
    }
    if t == 0 {
      failed := true;
    }
    r := if failed then NoPort else Port(t);
  }

  lemma ColonPlace(s: string, tail: nat)
    requires tail < |s| && s[tail] == ':'
    ensures UpTo(s[tail..], '/', '/') == 1 + UpTo(s[tail + 1..], '/', '/')
  {}

  lemma SlashPlace(s: string, tail: nat)
    requires tail <= |s| && (tail < |s| ==> s[tail] == '/')
    ensures UpTo(s[tail..], '/', '/') == 0
  {}

  lemma BracketPlace(s: string, from: nat)
    requires from < |s| && s[from] == '['
    ensures UpTo(s[from..], ']', ']') == 1 + UpTo(s[from + 1..], ']', ']')
  {}

  /** The URI object. An object that is not valid has no further promises. */
  class Uri {
    var scheme: string
    var host: string
    var resource: string
    var port: nat
    var secure: bool
    var valid: bool

    function Holds(): Parts
      reads this
    {
      Parts(scheme, secure, host, port, resource)
    }

    constructor FromString(uriString: string, other: Int32)
      ensures valid <==> ParseUri(uriString, other).Valid?
      ensures valid ==> Valid(Holds()) == ParseUri(uriString, other)
    {
      scheme, host, resource, valid := "", "", "", false;
      new;
      var r := ParseString(uriString, other);
      if r.Valid? {
        scheme, secure, host, port, resource := r.parts.scheme, r.parts.secure, r.parts.host, r.parts.port, r.parts.resource;
        valid := true;
      }
    }

    constructor FromParts(scheme: string, host: string, port: nat, resource: string)
      requires port <= 65535
      ensures valid && Holds() == Parts(scheme, IsSecure(scheme), host, port, if resource == "" then "/" else resource)
    {
      this.scheme, this.host, this.port := scheme, host, port;
      this.resource := if resource == "" then "/" else resource;
      secure := scheme == "wss" || scheme == "https";
      valid := true;
    }

    constructor FromPartsPortString(scheme: string, host: string, port: string, resource: string, other: Int32)
      ensures this.scheme == scheme && this.host == host && secure == IsSecure(scheme)
      ensures this.resource == if resource == "" then "/" else resource
      ensures valid <==> PortFromString(port, IsSecure(scheme), other).Port?
      ensures valid ==> this.port == PortFromString(port, IsSecure(scheme), other).port
    {
      this.scheme, this.host := scheme, host;
      this.resource := if resource == "" then "/" else resource;
      secure := scheme == "wss" || scheme == "https";
      new;
      var r := GetPortFromString(port, secure, other);
      valid := r.Port?;
      if r.Port? {
        this.port := r.port;
      }
    }

    /** `str`, written to a stream piece by piece. */
    method ToString() returns (s: string)
      ensures s == Str(Holds())
    {
      s := scheme + "://" + host;
      if port != (if secure then DEFAULT_SECURE_PORT else DEFAULT_PORT) {
        s := s + (":" + Decimal(port));
      }
      s := s + resource;
    }
  }
}
