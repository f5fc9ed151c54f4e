/** The values the status page computes and shows: file sizes, the host
    taken from the base URL, the pack listing with each pack's state, and
    the configuration form's initial values. */
module StatusPage {
  import opened JavaText
  import opened Http
  import opened Settings
  import opened Packs

  // ---------------------------------------------------------------------
  // formatFileSize
  // ---------------------------------------------------------------------

  const KiB: nat := 1024
  const MiB: nat := 1024 * 1024

  /** formatFileSize: whole bytes, kilobytes or megabytes, rounded down. */
  function FormatFileSize(n: nat): (r: string)
    ensures r == Dec(n / SizeUnit(n)) + " " + UnitName(SizeUnit(n))
  {
    if n < KiB then Dec(n) + " B"
    else if n < MiB then Dec(n / KiB) + " KB"
    else Dec(n / MiB) + " MB"
  }

  /** The unit a size is shown in: the largest of byte, kilobyte and
      megabyte that does not exceed it. */
  function SizeUnit(n: nat): (u: nat)
    ensures u == 1 || u == KiB || u == MiB
    ensures u == 1 || u <= n
    ensures u < MiB ==> n < u * KiB
  {
    if n < KiB then 1 else if n < MiB then KiB else MiB
  }

  function UnitName(u: nat): string {
    if u == 1 then "B" else if u == KiB then "KB" else "MB"
  }

  /** The shown figure is the size in its unit rounded down: it times the
      unit is at most the size, one more is beyond it, and below megabytes
      it is less than 1024. */
  lemma FormatFileSizeBrackets(n: nat)
    ensures var u := SizeUnit(n);
            && FormatFileSize(n) == Dec(n / u) + " " + UnitName(u)
            && (n / u) * u <= n < (n / u + 1) * u
            && (u < MiB ==> n / u < KiB)
            && (u > 1 ==> n / u >= 1)
  {
  }

  // ---------------------------------------------------------------------
  // The host shown from baseUrl
  // ---------------------------------------------------------------------

  /** The "Server IP" cell: the text after the first "://" of the base URL
      up to the next colon, or "Auto" when there is no "://". None where
      the page's own expression throws (nothing after "://", or only
      colons there), which leaves the request without a response. */
  function ShownHost(baseUrl: string): (r: Option<string>)
    ensures !Contains(baseUrl, "://") ==> r == Some("Auto")
    ensures Contains(baseUrl, "://") && r.Some? ==>
              forall k :: 0 <= k < |r.value| ==> r.value[k] != ':'
  {
    if !Contains(baseUrl, "://") then Some("Auto")
    else
      var parts := JavaSplit(baseUrl, "://");
      if |parts| < 2 then None
      else
        var hostParts := JavaSplit(parts[1], ":");
        FirstPieceHasNoSeparator(parts[1], ':');
        if hostParts == [] then None else Some(hostParts[0])
  }

  /** The URL the running server advertises. */
  function ServerUrl(ip: string, port: nat): string {
    "http://" + ip + ":" + Dec(port) + "/"
  }

  /** The page shows exactly the address the server advertises, for any
      address without a colon (every dotted quad and host name). */
  lemma ShownHostOfServerUrl(ip: string, port: nat)
    requires ip != [] && forall i :: 0 <= i < |ip| ==> ip[i] != ':'
    ensures ShownHost(ServerUrl(ip, port)) == Some(ip)
  {
    var d := Dec(port);
    var rest := ip + ":" + d + "/";
    assert ServerUrl(ip, port) == "http://" + rest;
    SchemeSplit(ip, d);
    HostSplit(ip, d);
  }

  /** Splitting the server URL at "://" gives the scheme and the rest. */
  lemma SchemeSplit(ip: string, d: string)
    requires forall i :: 0 <= i < |ip| ==> ip[i] != ':'
    requires d != [] && AllDigits(d)
    ensures var rest := ip + ":" + d + "/";
            Contains("http://" + rest, "://") && JavaSplit("http://" + rest, "://") == ["http", rest]
  {
    var rest := ip + ":" + d + "/";
    var url := "http://" + rest;
    assert url == "http" + "://" + rest;
    forall j: nat | j < 4 ensures !OccursAt(url, "://", j) {
      assert url[j] == "http"[j];
    }
    SplitAllAt("http", "://", rest);
    NoSchemeInRest(ip, d);
    SplitAllAbsent(rest, "://");
    assert url[4..7] == "://";
    IndexOfIsFirst(url, "://", 0, 4);
    assert SplitAll(url, "://") == ["http", rest];
  }

  lemma NoSchemeInRest(ip: string, d: string)
    requires forall i :: 0 <= i < |ip| ==> ip[i] != ':'
    requires d != [] && AllDigits(d)
    ensures forall j: nat :: !OccursAt(ip + ":" + d + "/", "://", j)
  {
    var rest := ip + ":" + d + "/";
    forall j: nat | j + 3 <= |rest| ensures rest[j] != ':' || rest[j + 1] != '/' {
      if j < |ip| {
        assert rest[j] == ip[j];
      } else if j == |ip| {
        assert rest[j + 1] == d[0];
      } else {
        assert rest[j] == d[j - |ip| - 1];
      }
    }
    forall j: nat ensures !OccursAt(rest, "://", j) {
      if j + 3 <= |rest| {
        assert rest[j..j + 3][0] == rest[j] && rest[j..j + 3][1] == rest[j + 1];
      }
    }
  }

  /** Splitting the rest at ":" starts with the address. */
  lemma HostSplit(ip: string, d: string)
    requires ip != [] && forall i :: 0 <= i < |ip| ==> ip[i] != ':'
    ensures var hostParts := JavaSplit(ip + ":" + d + "/", ":");
            hostParts != [] && hostParts[0] == ip
  {
    var rest := ip + ":" + d + "/";
    assert rest == ip + [':'] + (d + "/");
    SplitAllCons(ip, ':', d + "/");
    OccursAtChar(rest, ':', |ip|);
    IndexOfIsFirst(rest, ":", 0, |ip|);
    var pieces := SplitAll(rest, ":");
    assert pieces[0] == ip;
    DropTrailingEmptyKeeps(pieces, 0);
  }

  /** A base URL with nothing after "://" breaks the page. */
  lemma BareSchemeBreaksPage()
    ensures ShownHost("http://") == None
  {
    var url := "http://";
    assert url == "http" + "://" + "";
    forall j: nat | j < 4 ensures !OccursAt(url, "://", j) {
      assert url[j] == "http"[j];
    }
    SplitAllAt("http", "://", "");
    SplitAllAbsent("", "://");
    assert url[4..7] == "://";
    IndexOfIsFirst(url, "://", 0, 4);
    assert SplitAll(url, "://") == ["http", ""];
    assert DropTrailingEmpty(["http", ""]) == DropTrailingEmpty(["http"]);
  }

  // ---------------------------------------------------------------------
  // The pack listing
  // ---------------------------------------------------------------------

  /** The listing's filter: the lower-cased name ends in ".zip". */
  predicate ListedName(name: string) {
    EndsWith(ToLower(name), ".zip")
  }

  /** The names listFiles returns, in its order, that pass the filter. */
  function Listed(names: seq<string>): (r: seq<string>)
    ensures forall i :: 0 <= i < |r| ==> ListedName(r[i]) && r[i] in names
  {
    if names == [] then []
    else (if ListedName(names[0]) then [names[0]] else []) + Listed(names[1..])
  }

  /** Every name that passes the filter is listed. */
  lemma {:induction false} ListedComplete(names: seq<string>, name: string)
    requires name in names && ListedName(name)
    ensures name in Listed(names)
  {
    if names[0] != name {
      ListedComplete(names[1..], name);
    }
  }

  /** Whether some loaded pack has this file name. */
  function IsLoaded(packs: seq<PackInfo>, name: string): (r: bool)
    ensures r <==> exists i :: 0 <= i < |packs| && packs[i].filename == name
  {
    if packs == [] then false
    else packs[0].filename == name || IsLoaded(packs[1..], name)
  }

  /** File.length of a folder entry (0 for a directory). */
  function EntrySize(e: Entry): nat {
    match e
    case Regular(data) => |data|
    case Unreadable(size) => size
    case Directory => 0
  }

  datatype PackRow = PackRow(name: string, size: string, loaded: bool)

  /** The table rows: one per listed file, in listing order. */
  function Rows(names: seq<string>, folder: Folder, packs: seq<PackInfo>): (r: seq<PackRow>)
    ensures |r| == |Listed(names)|
  {
    var l := Listed(names);
    seq(|l|, i requires 0 <= i < |l| =>
      PackRow(l[i], FormatFileSize(if l[i] in folder then EntrySize(folder[l[i]]) else 0), IsLoaded(packs, l[i])))
  }

  /** Each row names a listed file and is marked loaded exactly when a
      loaded pack has that name. */
  lemma RowsShowLoadedState(names: seq<string>, folder: Folder, packs: seq<PackInfo>, i: nat)
    requires i < |Rows(names, folder, packs)|
    ensures var row := Rows(names, folder, packs)[i];
            && row.name in names && ListedName(row.name)
            && (row.loaded <==> exists j :: 0 <= j < |packs| && packs[j].filename == row.name)
  {
  }

  /** The listing ignores case but serving does not: a regular file whose
      name ends in ".ZIP" is listed, with a download link, and the link
      answers 404. */
  lemma ListedButRefused(folder: Folder, name: string)
    requires ListedName(name) && !EndsWith(name, ".zip")
    ensures ServeStatic(folder, name).code == 404
  {
    ServeStaticOutcome(folder, name);
  }

  lemma UpperCaseZipIsListed()
    ensures ListedName("PACK.ZIP") && !EndsWith("PACK.ZIP", ".zip")
  {
    var n := "PACK.ZIP";
    var l := ToLower(n);
    ToLowerAt(n, 4);
    ToLowerAt(n, 5);
    ToLowerAt(n, 6);
    ToLowerAt(n, 7);
    assert l[4..] == ".zip";
    assert n[5] == 'Z';
  }

  /** A listed file's download link, "/" followed by its name, is routed to
      that very file, from the request line on: the name must have no space,
      since the request line is split at spaces before the path is read. */
  lemma DownloadLinkServesFile(verb: string, name: string, rest: string)
    requires verb == "GET" || verb == "POST"
    requires ListedName(name)
    requires forall i :: 0 <= i < |name| ==> name[i] != '/'
    requires NoSpace(name)
    requires rest == [] || rest[0] == ' '
    ensures Dispatch(verb, "/" + name) == StaticFile(name)
    ensures RouteOf(Some(verb + " /" + name + rest)) == StaticFile(name)
  {
    var path := "/" + name;
    assert verb + " /" + name + rest == verb + " " + path + rest;
    assert NoSpace(path) by {
      assert forall j :: 1 <= j < |path| ==> path[j] == name[j - 1];
    }
    RequestLineRoute(verb, path, rest);
    DownloadPathIsStaticFile(verb, name);
  }

  /** The path of the link is neither the page, nor the API, and its last
      slash is the leading one. */
  lemma DownloadPathIsStaticFile(verb: string, name: string)
    requires verb == "GET" || verb == "POST"
    requires ListedName(name)
    requires forall i :: 0 <= i < |name| ==> name[i] != '/'
    ensures Dispatch(verb, "/" + name) == StaticFile(name)
  {
    var path := "/" + name;
    var l := ToLower(name);
    assert |name| >= 4;
    ToLowerAt(name, |name| - 1);
    assert l[|l| - 1] == 'p';
    assert path[|path| - 1] == name[|name| - 1];
    assert path[|path| - 1] != 'x' && path[|path| - 1] != 'l';
    assert "/index"[5] == 'x' && "/index.html"[10] == 'l';
    assert path[4] == name[3] != '/';
    assert "/api/"[4] == '/';
    assert !StartsWith(path, "/api/") by {
      assert path[..5][4] == path[4];
    }
    assert path[0] == '/';
    assert forall j :: 1 <= j < |path| ==> path[j] == name[j - 1];
    assert LastIndexOf(path, '/') == 0;
    assert path[1..] == name;
  }

  // ---------------------------------------------------------------------
  // The page as a whole
  // ---------------------------------------------------------------------

  /** Everything serveWebInterface computes: the status cells, the table
      and the form's initial values. */
  datatype StatusView = StatusView(
    running: bool, port: int, packCount: nat, host: string, rows: seq<PackRow>,
    formIp: string, formPort: int, formForce: bool, formAutoApply: bool)

  /** The page's values, or None where computing the host throws. A missing
      or empty listing shows the "no packs" notice: no rows. */
  function View(running: bool, port: int, packs: seq<PackInfo>, baseUrl: string,
                folder: Folder, listing: Option<seq<string>>, config: Store): (r: Option<StatusView>)
    ensures r.Some? <==> ShownHost(baseUrl).Some?
    ensures r.Some? ==> r.value.host == ShownHost(baseUrl).value && r.value.port == port
    ensures r.Some? ==> |r.value.rows| == if listing.Some? then |Listed(listing.value)| else 0
  {
    match ShownHost(baseUrl)
    case None => None
    case Some(host) =>
      Some(StatusView(
        running, port, |packs|, host,
        if listing.Some? then Rows(listing.value, folder, packs) else [],
        GetString(config, "server_ip", ""),
        GetInt(config, "http_port", 8080),
        GetBoolean(config, "force_pack", false),
        GetBoolean(config, "auto_apply_all_worlds", true)))
  }
}
