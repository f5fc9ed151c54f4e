/** The embedded HTTP server's responses and routing: how a request line
    is split and dispatched, how each kind of response is framed, and how a
    pack file is served from the pack folder. */
module Http {
  import opened JavaText

  type Byte = b: int | 0 <= b < 256

  datatype Header = Header(name: string, value: string)

  /** What a connection gets back: nothing (the socket is just closed), or
      a status line, headers and a body. */
  datatype Response =
    | NoResponse
    | Resp(code: int, reason: string, headers: seq<Header>, body: seq<Byte>)

  /** The bytes of ASCII text. */
  function AsciiBytes(s: string): (r: seq<Byte>)
    ensures |r| == |s|
  {
    seq(|s|, i requires 0 <= i < |s| => (s[i] as int) % 256)
  }

  // ---------------------------------------------------------------------
  // Framing
  // ---------------------------------------------------------------------

  /** A response whose headers carry, between `lead` and `trail`, the
      Content-Length of `body`. */
  function Framed(code: int, reason: string, lead: seq<Header>, body: seq<Byte>, trail: seq<Header>): Response {
    Resp(code, reason, lead + [Header("Content-Length", Dec(|body|))] + trail, body)
  }

  /** The value of the first Content-Length header. */
  function ContentLengthOf(headers: seq<Header>): Option<string> {
    if headers == [] then None
    else if headers[0].name == "Content-Length" then Some(headers[0].value)
    else ContentLengthOf(headers[1..])
  }

  /** The body length a client reads off the Content-Length header. */
  function DeclaredLength(r: Response): Option<nat> {
    if r.NoResponse? then None
    else
      match ContentLengthOf(r.headers)
      case None => None
      case Some(v) => if v != [] && AllDigits(v) then Some(DigitsValue(v)) else None
  }

  /** Every header but Content-Length in `lead` leaves the framed value
      first in line. */
  lemma {:induction false} FramedDeclaresLength(code: int, reason: string, lead: seq<Header>, body: seq<Byte>, trail: seq<Header>)
    requires forall h :: h in lead ==> h.name != "Content-Length"
    ensures DeclaredLength(Framed(code, reason, lead, body, trail)) == Some(|body|)
  {
    var hs := lead + [Header("Content-Length", Dec(|body|))] + trail;
    LeadSkipped(lead, Header("Content-Length", Dec(|body|)), trail);
    DigitsValueDec(|body|);
  }

  lemma {:induction false} LeadSkipped(lead: seq<Header>, h: Header, trail: seq<Header>)
    requires forall x :: x in lead ==> x.name != "Content-Length"
    requires h.name == "Content-Length"
    ensures ContentLengthOf(lead + [h] + trail) == Some(h.value)
  {
    if lead != [] {
      assert (lead + [h] + trail)[1..] == lead[1..] + [h] + trail;
      LeadSkipped(lead[1..], h, trail);
    } else {
      assert lead + [h] + trail == [h] + trail;
    }
  }

  /** sendErrorResponse: the message is both the reason phrase and the
      plain-text body. */
  function ErrorResponse(code: int, message: string): (r: Response)
    ensures r.Resp? && r.code == code && r.reason == message
    ensures DeclaredLength(r) == Some(|message|)
    ensures r.body == AsciiBytes(message)
  {
    FramedDeclaresLength(code, message, [Header("Content-Type", "text/plain")], AsciiBytes(message), []);
    Framed(code, message, [Header("Content-Type", "text/plain")], AsciiBytes(message), [])
  }

  /** sendJsonResponse: the reason phrase is "OK" whatever the code. */
  function JsonResponse(code: int, json: string): (r: Response)
    ensures r.Resp? && r.code == code && r.reason == "OK"
    ensures DeclaredLength(r) == Some(|json|)
    ensures r.body == AsciiBytes(json)
  {
    var lead := [Header("Content-Type", "application/json")];
    FramedDeclaresLength(code, "OK", lead, AsciiBytes(json), [Header("Cache-Control", "no-cache")]);
    Framed(code, "OK", lead, AsciiBytes(json), [Header("Cache-Control", "no-cache")])
  }

  /** The successful download of a pack file. */
  function FileResponse(filename: string, data: seq<Byte>): (r: Response)
    ensures r.Resp? && r.code == 200 && r.reason == "OK"
    ensures DeclaredLength(r) == Some(|data|)
    ensures r.body == data
  {
    var lead := [Header("Content-Type", "application/zip")];
    var trail := [
      Header("Content-Disposition", "attachment; filename=\"" + filename + "\""),
      Header("Cache-Control", "no-cache"),
      Header("Access-Control-Allow-Origin", "*")
    ];
    FramedDeclaresLength(200, "OK", lead, data, trail);
    Framed(200, "OK", lead, data, trail)
  }

  /** The status page, whatever HTML `html` is. */
  function PageResponse(html: string): (r: Response)
    ensures r.Resp? && r.code == 200 && r.reason == "OK"
    ensures DeclaredLength(r) == Some(|html|)
    ensures r.body == AsciiBytes(html)
  {
    var lead := [Header("Content-Type", "text/html; charset=UTF-8")];
    FramedDeclaresLength(200, "OK", lead, AsciiBytes(html), [Header("Cache-Control", "no-cache")]);
    Framed(200, "OK", lead, AsciiBytes(html), [Header("Cache-Control", "no-cache")])
  }

  // ---------------------------------------------------------------------
  // The bytes on the wire
  // ---------------------------------------------------------------------

  function HeaderLines(hs: seq<Header>, eol: string): string {
    if hs == [] then "" else hs[0].name + ": " + hs[0].value + eol + HeaderLines(hs[1..], eol)
  }

  /** Status line, header lines and the blank line, each ended by the
      line separator `eol` that PrintWriter.println writes. */
  function Head(code: int, reason: string, hs: seq<Header>, eol: string): string {
    "HTTP/1.1 " + IntToString(code) + " " + reason + eol + HeaderLines(hs, eol) + eol
  }

  /** Everything written to the connection. */
  function Wire(r: Response, eol: string): seq<Byte> {
    if r.NoResponse? then [] else AsciiBytes(Head(r.code, r.reason, r.headers, eol)) + r.body
  }

  /** A client that reads the Content-Length and takes that many bytes
      from the end of the transmission gets exactly the body, and what
      comes before it is the head. */
  lemma WireSplitsAtDeclaredLength(r: Response, eol: string)
    requires r.Resp? && DeclaredLength(r) == Some(|r.body|)
    ensures var w := Wire(r, eol);
            var n := DeclaredLength(r).value;
            n <= |w| && w[|w| - n..] == r.body
            && w[..|w| - n] == AsciiBytes(Head(r.code, r.reason, r.headers, eol))
  {
    var w := Wire(r, eol);
    var h := AsciiBytes(Head(r.code, r.reason, r.headers, eol));
    assert w == h + r.body;
    assert w[|h|..] == r.body;
    assert w[..|h|] == h;
  }

  // ---------------------------------------------------------------------
  // Reading the request (BufferedReader.readLine over the input text)
  // ---------------------------------------------------------------------

  predicate IsLineBreak(c: char) { c == '\n' || c == '\r' }

  /** The first line break at or after `pos`, or the end of the text. */
  function LineEnd(s: string, pos: nat): (k: nat)
    requires pos <= |s|
    decreases |s| - pos
    ensures pos <= k <= |s|
    ensures forall i :: pos <= i < k ==> !IsLineBreak(s[i])
    ensures k < |s| ==> IsLineBreak(s[k])
  {
    if pos == |s| || IsLineBreak(s[pos]) then pos else LineEnd(s, pos + 1)
  }

  /** A line read, and where the reader stands after it. */
  datatype Line = Line(text: string, next: nat)

  /** readLine from position `pos`: None at the end of the input;
      otherwise the text up to a "\n", a "\r" or a "\r\n", which is
      consumed but not returned. */
  function ReadLine(s: string, pos: nat): (r: Option<Line>)
    requires pos <= |s|
    ensures r.None? <==> pos == |s|
    ensures r.Some? ==> pos < r.value.next <= |s|
  {
    if pos == |s| then None
    else
      var k := LineEnd(s, pos);
      if k == |s| then Some(Line(s[pos..], |s|))
      else if s[k] == '\r' && k + 1 < |s| && s[k + 1] == '\n' then Some(Line(s[pos..k], k + 2))
      else Some(Line(s[pos..k], k + 1))
  }

  predicate NoLineBreak(t: string) {
    forall i :: 0 <= i < |t| ==> !IsLineBreak(t[i])
  }

  /** A line ended by CR LF, as HTTP clients send them, is read back whole
      and the reader moves past both characters. */
  lemma ReadsCrLfLine(s: string, pos: nat, text: string, rest: string)
    requires pos <= |s| && s[pos..] == text + "\r\n" + rest
    requires NoLineBreak(text)
    ensures ReadLine(s, pos) == Some(Line(text, pos + |text| + 2))
  {
    var k := pos + |text|;
    assert s[k] == '\r' && s[k + 1] == '\n';
    LineEndAt(s, pos, k);
    assert s[pos..k] == text;
  }

  /** A line ended by a lone LF, or by a CR not followed by LF, is read
      back whole and the reader moves past that one character. */
  lemma ReadsLoneBreakLine(s: string, pos: nat, text: string, b: char, rest: string)
    requires pos <= |s| && s[pos..] == text + [b] + rest
    requires NoLineBreak(text)
    requires b == '\n' || (b == '\r' && (rest == [] || rest[0] != '\n'))
    ensures ReadLine(s, pos) == Some(Line(text, pos + |text| + 1))
  {
    var k := pos + |text|;
    assert s[k] == b;
    assert k + 1 < |s| ==> s[k + 1] == rest[0];
    LineEndAt(s, pos, k);
    assert s[pos..k] == text;
  }

  /** The last line of the input, without a line break, is read whole and
      the reader stops at the end. */
  lemma ReadsLastLine(s: string, pos: nat)
    requires pos < |s| && NoLineBreak(s[pos..])
    ensures ReadLine(s, pos) == Some(Line(s[pos..], |s|))
  {
    forall i | pos <= i < |s| ensures !IsLineBreak(s[i]) {
      assert s[i] == s[pos..][i - pos];
    }
  }

  lemma {:induction false} LineEndAt(s: string, pos: nat, k: nat)
    requires pos <= k < |s| && IsLineBreak(s[k])
    requires forall i :: pos <= i < k ==> !IsLineBreak(s[i])
    ensures LineEnd(s, pos) == k
    decreases k - pos
  {
    if pos < k {
      LineEndAt(s, pos + 1, k);
    }
  }

  // ---------------------------------------------------------------------
  // Routing
  // ---------------------------------------------------------------------

  datatype Route =
    | Drop                      // no request line, or fewer than two tokens
    | BadMethod                 // 405
    | StatusPage                // the HTML status and configuration page
    | ApiConfig                 // POST /api/config
    | ApiReload                 // POST /api/reload
    | ApiNotFound               // any other /api/ request
    | StaticFile(name: string)  // a file from the pack folder

  /** handleApiRequest's choice. */
  function ApiRoute(verb: string, path: string): (r: Route)
    ensures r == ApiConfig || r == ApiReload || r == ApiNotFound
    ensures r != ApiNotFound ==> verb == "POST"
  {
    if verb == "POST" && path == "/api/config" then ApiConfig
    else if verb == "POST" && path == "/api/reload" then ApiReload
    else ApiNotFound
  }

  /** The file name a path asks for: what follows its last slash. */
  function FileNameOf(path: string): string {
    path[LastIndexOf(path, '/') + 1..]
  }

  /** handleHttpRequest's choice once the method and path are known. */
  function Dispatch(verb: string, path: string): (r: Route)
    ensures r != Drop
    ensures r == BadMethod <==> verb != "GET" && verb != "POST"
    ensures r == StatusPage <==>
              (verb == "GET" || verb == "POST") && (path == "/" || path == "/index" || path == "/index.html")
    ensures r == ApiConfig || r == ApiReload || r == ApiNotFound <==>
              (verb == "GET" || verb == "POST") && StartsWith(path, "/api/")
    ensures r.StaticFile? <==>
              (verb == "GET" || verb == "POST") && path != "/" && path != "/index" && path != "/index.html"
              && !StartsWith(path, "/api/")
    ensures r.StaticFile? ==> r.name == FileNameOf(path) && forall i :: 0 <= i < |r.name| ==> r.name[i] != '/'
  {
    ApiPathIsNotIndex(path);
    if verb != "GET" && verb != "POST" then BadMethod
    else if path == "/" || path == "/index" || path == "/index.html" then StatusPage
    else if StartsWith(path, "/api/") then ApiRoute(verb, path)
    else StaticFile(FileNameOf(path))
  }

  /** handleHttpRequest's choice from the raw request line (None when the
      connection ends before one is read). */
  function RouteOf(requestLine: Option<string>): (r: Route)
    ensures r != Drop ==> requestLine.Some? && Contains(requestLine.value, " ")
  {
    if requestLine.None? then Drop
    else
      var tokens := JavaSplit(requestLine.value, " ");
      if |tokens| < 2 then Drop else Dispatch(tokens[0], tokens[1])
  }

  predicate NoSpace(s: string) {
    forall i :: 0 <= i < |s| ==> s[i] != ' '
  }

  /** A request line `METHOD SP PATH [SP ...]` is routed on its method and
      path. */
  lemma RequestLineRoute(verb: string, path: string, rest: string)
    requires verb != [] && NoSpace(verb)
    requires path != [] && NoSpace(path)
    requires rest == [] || rest[0] == ' '
    ensures RouteOf(Some(verb + " " + path + rest)) == Dispatch(verb, path)
  {
    RequestLineTokens(verb, path, rest);
  }

  /** Splitting such a line at spaces gives the method and the path as its
      first two tokens. */
  lemma RequestLineTokens(verb: string, path: string, rest: string)
    requires verb != [] && NoSpace(verb)
    requires path != [] && NoSpace(path)
    requires rest == [] || rest[0] == ' '
    ensures var tokens := JavaSplit(verb + " " + path + rest, " ");
            |tokens| >= 2 && tokens[0] == verb && tokens[1] == path
  {
    var line := verb + " " + path + rest;
    RequestLinePieces(verb, path, rest);
    OccursAtChar(line, ' ', |verb|);
    DropTrailingEmptyKeeps(SplitAll(line, " "), 1);
  }

  /** Every piece of such a line, empty ones included: the method, then the
      path. */
  lemma RequestLinePieces(verb: string, path: string, rest: string)
    requires NoSpace(verb) && NoSpace(path)
    requires rest == [] || rest[0] == ' '
    ensures var pieces := SplitAll(verb + " " + path + rest, " ");
            |pieces| >= 2 && pieces[0] == verb && pieces[1] == path
  {
    assert verb + " " + path + rest == verb + [' '] + (path + rest);
    SplitAllCons(verb, ' ', path + rest);
    if rest == [] {
      SplitAllNone(path, ' ');
      assert path + rest == path;
    } else {
      assert path + rest == path + [' '] + rest[1..];
      SplitAllCons(path, ' ', rest[1..]);
    }
  }

  /** A request line that is one word, perhaps followed by spaces, gets no
      response at all: split drops the trailing empty pieces, leaving fewer
      than two tokens. */
  lemma SingleTokenLineIsDropped(verb: string, sp: string)
    requires NoSpace(verb)
    requires forall i :: 0 <= i < |sp| ==> sp[i] == ' '
    ensures RouteOf(Some(verb + sp)) == Drop
  {
    if sp == [] {
      assert verb + sp == verb;
      SplitAllNone(verb, ' ');
    } else {
      assert verb + sp == verb + [' '] + sp[1..];
      SplitAllCons(verb, ' ', sp[1..]);
      SplitAllOfSeparators(sp[1..], ' ');
      var pieces := SplitAll(verb + sp, " ");
      forall k | 1 <= k < |pieces| ensures pieces[k] == "" {
        assert pieces[k] == SplitAll(sp[1..], " ")[k - 1];
      }
      DropTrailingEmptyLeavesHead(pieces);
    }
  }

  /** No path under /api/ is one of the status page's paths. */
  lemma ApiPathIsNotIndex(path: string)
    ensures StartsWith(path, "/api/") ==> path != "/" && path != "/index" && path != "/index.html"
  {
    if StartsWith(path, "/api/") {
      assert path[..5] == "/api/";
      assert path[1] == 'a';
      assert "/index"[1] == 'i' && "/index.html"[1] == 'i';
    }
  }

  /** The whole routing of a request line `METHOD SP PATH [SP ...]`: 405
      for any other method; the status page for "/", "/index" and
      "/index.html"; the two POST endpoints and 404 under /api/; and the
      file named after the path's last slash for every other path. */
  lemma RoutingTable(verb: string, path: string, rest: string)
    requires verb != [] && NoSpace(verb)
    requires path != [] && NoSpace(path)
    requires rest == [] || rest[0] == ' '
    ensures RouteTable(verb, path, RouteOf(Some(verb + " " + path + rest)))
  {
    RequestLineRoute(verb, path, rest);
    DispatchTable(verb, path);
  }

  /** The routing table, for the route `r` chosen for a method and path. */
  predicate RouteTable(verb: string, path: string, r: Route) {
    var known := verb == "GET" || verb == "POST";
    var index := path == "/" || path == "/index" || path == "/index.html";
    && (r == BadMethod <==> !known)
    && (r == StatusPage <==> known && index)
    && (r == ApiConfig <==> verb == "POST" && path == "/api/config")
    && (r == ApiReload <==> verb == "POST" && path == "/api/reload")
    && (r == ApiNotFound <==> known && StartsWith(path, "/api/")
                              && !(verb == "POST" && (path == "/api/config" || path == "/api/reload")))
    && (r.StaticFile? <==> known && !index && !StartsWith(path, "/api/"))
    && (r.StaticFile? ==> r.name == FileNameOf(path))
  }

  lemma DispatchTable(verb: string, path: string)
    ensures RouteTable(verb, path, Dispatch(verb, path))
  {
    ApiPathIsNotIndex("/api/config");
    ApiPathIsNotIndex("/api/reload");
    if verb != "GET" && verb != "POST" {
      assert Dispatch(verb, path) == BadMethod;
    } else if path == "/" || path == "/index" || path == "/index.html" {
      assert Dispatch(verb, path) == StatusPage;
    } else if StartsWith(path, "/api/") {
      ApiEndpoints(verb, path);
    } else {
      assert "/api/config"[..5] == "/api/" && "/api/reload"[..5] == "/api/";
      assert Dispatch(verb, path) == StaticFile(FileNameOf(path));
    }
  }

  /** Only two API endpoints exist, both POST; a GET to either, like any
      other /api/ path, is "not found" rather than "method not allowed". */
  lemma ApiEndpoints(verb: string, path: string)
    requires StartsWith(path, "/api/")
    requires verb == "GET" || verb == "POST"
    ensures Dispatch(verb, path) == ApiConfig <==> verb == "POST" && path == "/api/config"
    ensures Dispatch(verb, path) == ApiReload <==> verb == "POST" && path == "/api/reload"
    ensures Dispatch(verb, path) == ApiNotFound <==>
              !(verb == "POST" && (path == "/api/config" || path == "/api/reload"))
  {
    ApiPathIsNotIndex(path);
  }

  /** The file name taken from a path has no slash and is what follows the
      path's last slash: the whole path when it has none. */
  lemma FileNameHasNoSlash(path: string)
    ensures var name := FileNameOf(path);
            (forall i :: 0 <= i < |name| ==> name[i] != '/')
            && |name| <= |path| && path[|path| - |name|..] == name
            && (|name| == |path| || path[|path| - |name| - 1] == '/')
  {
  }

  // ---------------------------------------------------------------------
  // Serving a pack file
  // ---------------------------------------------------------------------

  /** What the pack folder holds under a name: a regular file with its
      bytes, a regular file of some size that cannot be read, or a
      directory. */
  datatype Entry = Regular(data: seq<Byte>) | Unreadable(size: nat) | Directory

  type Folder = map<string, Entry>

  /** The static-file branch of handleHttpRequest. */
  function ServeStatic(folder: Folder, name: string): (r: Response)
    ensures r.Resp? && (r.code == 200 || r.code == 404 || r.code == 500)
    ensures DeclaredLength(r) == Some(|r.body|)
  {
    if name in folder && !folder[name].Directory? && EndsWith(name, ".zip") then
      match folder[name]
      case Regular(data) => FileResponse(name, data)
      case _ => ErrorResponse(500, "Internal Server Error")
    else ErrorResponse(404, "File not found: " + name)
  }

  /** A file is sent exactly when it is a readable regular file whose name
      ends in ".zip" (case-sensitively); the body is then the file's bytes
      and the declared length its size. Otherwise the answer is 404 naming
      the file, or 500 when the file exists but cannot be read. */
  lemma ServeStaticOutcome(folder: Folder, name: string)
    ensures var r := ServeStatic(folder, name);
            && r.Resp?
            && (r.code == 200 <==> name in folder && folder[name].Regular? && EndsWith(name, ".zip"))
            && (r.code == 200 ==> r.body == folder[name].data && DeclaredLength(r) == Some(|r.body|))
            && (r.code == 404 <==> !(name in folder && !folder[name].Directory? && EndsWith(name, ".zip")))
            && (r.code == 404 ==> r.reason == "File not found: " + name && r.body == AsciiBytes(r.reason))
  {
  }
}
