/** POST /api/config: how the handler reads the rest of the request (the
    header lines, the Content-Length it finds there, and the body), what it
    extracts from the body, and what it writes and answers. */
module ConfigApi {
  import opened JavaText
  import opened JsonScan
  import opened Http
  import opened Settings

  const SuccessJson: string :=
    "{\"success\": true, \"message\": \"Configuration updated successfully! Restart recommended.\"}"

  /** The failure answer, with the exception's message pasted in as is. */
  function ErrorJson(message: string): string {
    "{\"success\": false, \"message\": \"Error updating configuration: " + message + "\"}"
  }

  // ---------------------------------------------------------------------
  // Header lines and Content-Length
  // ---------------------------------------------------------------------

  /** A header line that sets the body length: its lower-cased text starts
      with "content-length:". */
  predicate IsLengthHeader(line: string) {
    StartsWith(ToLower(line), "content-length:")
  }

  /** A length read from a header, or the message of the exception reading
      it raises. */
  datatype Length = Length(n: int) | LengthError(message: string)

  /** Integer.parseInt(line.split(":")[1].trim()). */
  function HeaderLength(line: string): (r: Length)
    ensures r.Length? ==> Contains(line, ":") && IntMin <= r.n <= IntMax
  {
    var parts := JavaSplit(line, ":");
    if |parts| < 2 then LengthError(IndexOutOfBoundsMessage(1, |parts|))
    else
      var v := Trim(parts[1]);
      match ParseInt(v)
      case None => LengthError(NumberFormatMessage(v))
      case Some(n) => Length(n)
  }

  /** What one header line does in the loop: nothing for a line that is
      not a length header, otherwise the length it gives or the exception
      reading it raises. */
  function LengthOf(line: string): Option<Length> {
    if IsLengthHeader(line) then Some(HeaderLength(line)) else None
  }

  predicate Fails(r: Option<Length>) {
    r.Some? && r.value.LengthError?
  }

  /** The header loop over a list of lines, for a way `read` of reading each
      line: a length replaces the length so far, and the first error ends
      the loop. */
  function FoldLines(read: string -> Option<Length>, lines: seq<string>, length: int): Length {
    if lines == [] then Length(length)
    else
      match read(lines[0])
      case None => FoldLines(read, lines[1..], length)
      case Some(LengthError(m)) => LengthError(m)
      case Some(Length(n)) => FoldLines(read, lines[1..], n)
  }

  /** The header loop over a list of header lines. */
  function FoldHeaders(lines: seq<string>, length: int): Length {
    FoldLines(LengthOf, lines, length)
  }

  lemma {:induction false} LastReadWins(read: string -> Option<Length>, lines: seq<string>, length: int, i: nat, n: int)
    requires i < |lines| && read(lines[i]) == Some(Length(n))
    requires forall j :: 0 <= j < i ==> !Fails(read(lines[j]))
    requires forall j :: i < j < |lines| ==> read(lines[j]).None?
    ensures FoldLines(read, lines, length) == Length(n)
  {
    var tail := lines[1..];
    if i == 0 {
      NothingRead(read, tail, n);
    } else {
      var next := if read(lines[0]).Some? then read(lines[0]).value.n else length;
      LastReadWins(read, tail, next, i - 1, n);
    }
  }

  lemma {:induction false} NothingRead(read: string -> Option<Length>, lines: seq<string>, length: int)
    requires forall j :: 0 <= j < |lines| ==> read(lines[j]).None?
    ensures FoldLines(read, lines, length) == Length(length)
  {
    if lines != [] {
      NothingRead(read, lines[1..], length);
    }
  }

  lemma {:induction false} FirstFailureEnds(read: string -> Option<Length>, lines: seq<string>, length: int, i: nat)
    requires i < |lines| && Fails(read(lines[i]))
    requires forall j :: 0 <= j < i ==> !Fails(read(lines[j]))
    ensures FoldLines(read, lines, length) == read(lines[i]).value
  {
    if i > 0 {
      var next := if read(lines[0]).Some? then read(lines[0]).value.n else length;
      FirstFailureEnds(read, lines[1..], next, i - 1);
    }
  }

  /** The length is the one the last length header gives, when every
      length header can be read. */
  lemma LastLengthWins(lines: seq<string>, length: int, i: nat, n: int)
    requires i < |lines| && IsLengthHeader(lines[i]) && HeaderLength(lines[i]) == Length(n)
    requires forall j :: 0 <= j < i && IsLengthHeader(lines[j]) ==> HeaderLength(lines[j]).Length?
    requires forall j :: i < j < |lines| ==> !IsLengthHeader(lines[j])
    ensures FoldHeaders(lines, length) == Length(n)
  {
    LastReadWins(LengthOf, lines, length, i, n);
  }

  /** Without length headers the length stays what it was (0 at the
      start). */
  lemma NoLengthHeaders(lines: seq<string>, length: int)
    requires forall j :: 0 <= j < |lines| ==> !IsLengthHeader(lines[j])
    ensures FoldHeaders(lines, length) == Length(length)
  {
    NothingRead(LengthOf, lines, length);
  }

  /** The first length header that cannot be read fails the request,
      whatever follows it. */
  lemma FirstBadLengthFails(lines: seq<string>, length: int, i: nat)
    requires i < |lines| && IsLengthHeader(lines[i]) && HeaderLength(lines[i]).LengthError?
    requires forall j :: 0 <= j < i && IsLengthHeader(lines[j]) ==> HeaderLength(lines[j]).Length?
    ensures FoldHeaders(lines, length) == HeaderLength(lines[i])
  {
    FirstFailureEnds(LengthOf, lines, length, i);
  }

  /** A length header reads as the number written after its colon: blanks
      around the number are trimmed, and a second colon cuts the value
      off there (so "Content-Length: 1:2" reads 1). */
  lemma HeaderValue(name: string, ws: string, n: int, ws2: string, tail: string)
    requires forall i :: 0 <= i < |name| ==> name[i] != ':'
    requires forall i :: 0 <= i < |ws| ==> ws[i] <= ' '
    requires forall i :: 0 <= i < |ws2| ==> ws2[i] <= ' '
    requires IntMin <= n <= IntMax
    requires tail == [] || tail[0] == ':'
    ensures HeaderLength(name + ":" + ws + IntToString(n) + ws2 + tail) == Length(n)
  {
    var v := IntToString(n);
    var value := ws + v + ws2;
    assert v[0] == '-' || IsDigit(v[0]);
    assert IsDigit(v[|v| - 1]);
    forall i | 0 <= i < |value| ensures value[i] != ':' {
      if |ws| <= i < |ws| + |v| {
        assert value[i] == v[i - |ws|];
      }
    }
    assert name + ":" + ws + v + ws2 + tail == name + ":" + value + tail;
    SecondPiece(name, value, tail);
    TrimAround(ws, v, ws2);
    ParseIntToString(n);
  }

  /** The second piece of a split at colons is the text between the first
      colon and the next one. */
  lemma SecondPiece(name: string, value: string, tail: string)
    requires forall i :: 0 <= i < |name| ==> name[i] != ':'
    requires forall i :: 0 <= i < |value| ==> value[i] != ':'
    requires value != [] && (tail == [] || tail[0] == ':')
    ensures var parts := JavaSplit(name + ":" + value + tail, ":");
            |parts| >= 2 && parts[1] == value
  {
    var rest := value + tail;
    var line := name + [':'] + rest;
    assert name + ":" + value + tail == line;
    SplitAllCons(name, ':', rest);
    HeadPiece(value, ':', tail);
    var pieces := SplitAll(line, ":");
    assert pieces == [name] + SplitAll(rest, ":");
    assert pieces[1] == value;
    OccursAtChar(line, ':', |name|);
    DropTrailingEmptyKeeps(pieces, 1);
  }

  /** A header line that ends at its only colon, such as a bare
      "content-length:", fails with an index out of bounds: the split drops
      the empty trailing piece. */
  lemma EmptyLengthHeaderFails(name: string)
    requires name != []
    requires forall i :: 0 <= i < |name| ==> name[i] != ':'
    ensures HeaderLength(name + ":") == LengthError(IndexOutOfBoundsMessage(1, 1))
  {
    var line := name + ":";
    assert line == name + [':'] + "";
    SplitAllCons(name, ':', "");
    SplitAllNone("", ':');
    OccursAtChar(line, ':', |name|);
    assert IndexOf(line, ":").Some?;
    assert SplitAll(line, ":") == [name, ""];
    assert DropTrailingEmpty([name, ""]) == DropTrailingEmpty([name]);
    assert JavaSplit(line, ":") == [name];
  }

  /** The header name is matched without regard to case. */
  lemma LengthHeaderAnyCase(line: string)
    requires |line| >= 15
    requires forall i :: 0 <= i < 15 ==> ToLowerChar(line[i]) == "content-length:"[i]
    ensures IsLengthHeader(line)
  {
    var l := ToLower(line);
    forall i | 0 <= i < 15 ensures l[i] == "content-length:"[i] {
      ToLowerAt(line, i);
    }
    assert l[..15] == "content-length:";
  }

  // ---------------------------------------------------------------------
  // Reading the request stream
  // ---------------------------------------------------------------------

  /** What the header loop leaves: the length and where the body starts, or
      the message of the exception that ended it. */
  datatype Scan = Scanned(length: int, next: nat) | ScanFailed(message: string)

  /** The header loop over the input text from `pos`: it stops at an empty
      line or at the end of the input. */
  function ScanHeaders(s: string, pos: nat, length: int): (r: Scan)
    requires pos <= |s|
    decreases |s| - pos
    ensures r.Scanned? ==> pos <= r.next <= |s|
  {
    match ReadLine(s, pos)
    case None => Scanned(length, pos)
    case Some(line) =>
      if line.text == "" then Scanned(length, line.next)
      else if IsLengthHeader(line.text) then
        match HeaderLength(line.text)
        case LengthError(m) => ScanFailed(m)
        case Length(n) => ScanHeaders(s, line.next, n)
      else ScanHeaders(s, line.next, length)
  }

  /** Header lines each ended by CR LF. */
  function CrLfLines(lines: seq<string>): string {
    if lines == [] then "" else lines[0] + "\r\n" + CrLfLines(lines[1..])
  }

  /** Reading a well-formed header block, CR LF lines and an empty line,
      gives what the header loop over those lines gives, and leaves the
      reader at the start of the body. */
  lemma {:induction false} ScanHeadersOfLines(s: string, pos: nat, lines: seq<string>, body: string, length: int)
    requires pos <= |s| && s[pos..] == CrLfLines(lines) + "\r\n" + body
    requires forall i :: 0 <= i < |lines| ==> lines[i] != "" && NoLineBreak(lines[i])
    ensures FoldHeaders(lines, length).Length? ==>
              ScanHeaders(s, pos, length) == Scanned(FoldHeaders(lines, length).n, |s| - |body|)
    ensures FoldHeaders(lines, length).LengthError? ==>
              ScanHeaders(s, pos, length) == ScanFailed(FoldHeaders(lines, length).message)
    decreases |lines|
  {
    if lines == [] {
      assert s[pos..] == "" + "\r\n" + body;
      ReadsCrLfLine(s, pos, "", body);
    } else {
      var rest := CrLfLines(lines[1..]) + "\r\n" + body;
      assert s[pos..] == lines[0] + "\r\n" + rest;
      ReadsCrLfLine(s, pos, lines[0], rest);
      var next := pos + |lines[0]| + 2;
      assert s[next..] == rest;
      ScanStep(s, pos, lines[0], next, length);
      FoldStep(lines, length);
      if IsLengthHeader(lines[0]) && HeaderLength(lines[0]).Length? {
        ScanHeadersOfLines(s, next, lines[1..], body, HeaderLength(lines[0]).n);
      } else if !IsLengthHeader(lines[0]) {
        ScanHeadersOfLines(s, next, lines[1..], body, length);
      }
    }
  }

  /** One turn of the header loop over a non-empty line. */
  lemma ScanStep(s: string, pos: nat, text: string, next: nat, length: int)
    requires pos <= |s| && ReadLine(s, pos) == Some(Line(text, next)) && text != ""
    ensures !IsLengthHeader(text) ==> ScanHeaders(s, pos, length) == ScanHeaders(s, next, length)
    ensures IsLengthHeader(text) && HeaderLength(text).Length? ==>
              ScanHeaders(s, pos, length) == ScanHeaders(s, next, HeaderLength(text).n)
    ensures IsLengthHeader(text) && HeaderLength(text).LengthError? ==>
              ScanHeaders(s, pos, length) == ScanFailed(HeaderLength(text).message)
  {
  }

  /** One turn of the header loop over a list of lines. */
  lemma FoldStep(lines: seq<string>, length: int)
    requires lines != []
    ensures !IsLengthHeader(lines[0]) ==> FoldHeaders(lines, length) == FoldHeaders(lines[1..], length)
    ensures IsLengthHeader(lines[0]) && HeaderLength(lines[0]).Length? ==>
              FoldHeaders(lines, length) == FoldHeaders(lines[1..], HeaderLength(lines[0]).n)
    ensures IsLengthHeader(lines[0]) && HeaderLength(lines[0]).LengthError? ==>
              FoldHeaders(lines, length) == HeaderLength(lines[0])
  {
  }

  function Nuls(n: nat): (r: string)
    ensures |r| == n
  {
    seq(n, _ => '\0')
  }

  /** The body: nothing for a length of zero or less; otherwise a buffer of
      `n` characters filled from the input as far as it goes, the rest left
      as NUL characters. */
  function ReadBody(s: string, pos: nat, n: int): (r: string)
    requires pos <= |s|
    ensures n <= 0 ==> r == ""
    ensures n > 0 ==> |r| == n
    ensures n > 0 ==> forall i :: 0 <= i < n ==> r[i] == (if pos + i < |s| then s[pos + i] else '\0')
  {
    if n <= 0 then ""
    else
      var avail := s[pos..];
      var k := if n < |avail| then n else |avail|;
      avail[..k] + Nuls(n - k)
  }

  /** A declared length that matches the body reads exactly the body. */
  lemma ReadBodyExact(s: string, pos: nat, body: string)
    requires pos <= |s| && s[pos..] == body
    ensures ReadBody(s, pos, |body|) == body
  {
  }

  // ---------------------------------------------------------------------
  // The update
  // ---------------------------------------------------------------------

  /** The outcome of a config update: the header loop failed; the port did
      not parse (after server_ip was already written); or all four values
      were written and saved. */
  datatype Update =
    | HeaderError(message: string)
    | PortError(serverIp: string, message: string)
    | Updated(serverIp: string, port: int, forcePack: bool, autoApply: bool)

  /** What the handler makes of a body. */
  function UpdateOf(body: string): (r: Update)
    ensures !r.HeaderError? && r.serverIp == JsonValue(body, "server_ip")
    ensures r.Updated? <==> ParseInt(JsonValue(body, "http_port")).Some?
  {
    UpdateOfFields(JsonValue(body, "server_ip"), JsonValue(body, "http_port"),
                   JsonValue(body, "force_pack"), JsonValue(body, "auto_apply"))
  }

  /** What the handler makes of the four extracted texts: the flags are
      true only for the exact text "true". */
  function UpdateOfFields(ip: string, port: string, force: string, auto: string): Update {
    match ParseInt(port)
    case None => PortError(ip, NumberFormatMessage(port))
    case Some(p) => Updated(ip, p, force == "true", auto == "true")
  }

  /** The outcome for the input text after the request line. */
  function ConfigUpdate(s: string, pos: nat): Update
    requires pos <= |s|
  {
    match ScanHeaders(s, pos, 0)
    case ScanFailed(m) => HeaderError(m)
    case Scanned(n, next) => UpdateOf(ReadBody(s, next, n))
  }

  /** The four keys an update writes. */
  const UpdateKeys: set<string> := {"server_ip", "http_port", "force_pack", "auto_apply_all_worlds"}

  /** The keys an update writes: none, server_ip alone, or all four. */
  function WrittenKeys(u: Update): set<string> {
    match u
    case HeaderError(_) => {}
    case PortError(_, _) => {"server_ip"}
    case Updated(_, _, _, _) => UpdateKeys
  }

  /** The in-memory configuration after an update. */
  function Applied(config: Store, u: Update): (r: Store)
    ensures forall k :: k !in UpdateKeys ==> (k in r <==> k in config) && (k in config ==> r[k] == config[k])
    ensures WrittenKeys(u) <= r.Keys
  {
    match u
    case HeaderError(_) => config
    case PortError(ip, _) => config["server_ip" := Str(ip)]
    case Updated(ip, p, f, a) =>
      config["server_ip" := Str(ip)]["http_port" := Int(p)]["force_pack" := Bool(f)]["auto_apply_all_worlds" := Bool(a)]
  }

  /** The answer to an update. */
  function UpdateResponse(u: Update): (r: Response)
    ensures r.Resp? && DeclaredLength(r) == Some(|r.body|)
    ensures r.code == 200 <==> u.Updated?
    ensures r.code == 500 <==> !u.Updated?
  {
    match u
    case HeaderError(m) => JsonResponse(500, ErrorJson(m))
    case PortError(_, m) => JsonResponse(500, ErrorJson(m))
    case Updated(_, _, _, _) => JsonResponse(200, SuccessJson)
  }

  /** A body without an http_port field is refused with the message of
      parsing the empty string, but server_ip is still written. */
  lemma MissingPortIsRefused(config: Store, body: string)
    requires forall j: nat :: !OccursAt(body, Marker("http_port"), j)
    ensures UpdateOf(body) == PortError(JsonValue(body, "server_ip"), "For input string: \"\"")
    ensures UpdateResponse(UpdateOf(body)).code == 500
    ensures GetString(Applied(config, UpdateOf(body)), "server_ip", "") == JsonValue(body, "server_ip")
  {
    ReadsNothingWithoutMarker(body, "http_port");
  }

  /** The two flags come out true exactly when the field reads "true"; a
      missing field, "false" or any other text gives false. */
  lemma FlagsAreExactlyTrue(config: Store, body: string)
    requires UpdateOf(body).Updated?
    ensures var c := Applied(config, UpdateOf(body));
            && (GetBoolean(c, "force_pack", false) <==> JsonValue(body, "force_pack") == "true")
            && (GetBoolean(c, "auto_apply_all_worlds", true) <==> JsonValue(body, "auto_apply") == "true")
            && GetInt(c, "http_port", 8080) == ParseInt(JsonValue(body, "http_port")).value
  {
  }

  /** Read back through the getters, the configuration holds what the
      update wrote: nothing after a header error, server_ip alone after a
      bad port, all four values after a success. */
  lemma UpdateOutcome(config: Store, u: Update)
    ensures u.HeaderError? ==> Applied(config, u) == config
    ensures !u.HeaderError? ==> GetString(Applied(config, u), "server_ip", "") == u.serverIp
    ensures u.PortError? ==> GetInt(Applied(config, u), "http_port", 8080) == GetInt(config, "http_port", 8080)
    ensures u.Updated? ==> GetInt(Applied(config, u), "http_port", 8080) == u.port
    ensures u.Updated? ==> GetBoolean(Applied(config, u), "force_pack", false) == u.forcePack
    ensures u.Updated? ==> GetBoolean(Applied(config, u), "auto_apply_all_worlds", true) == u.autoApply
  {
  }
}
