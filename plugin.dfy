/** The plugin object: its state (the pack list, the advertised base URL,
    the HTTP port, whether the server runs, and the configuration in memory
    and on disk) and the handlers that read and change it. */
module Plugin {
  import opened JavaText
  import opened JsonScan
  import opened Http
  import opened Settings
  import opened Packs
  import Address
  import opened StatusPage
  import opened ConfigApi

  const ReloadedJson: string := "{\"success\": true, \"message\": \"Plugin reloaded successfully!\"}"
  const NotFoundJson: string := "{\"success\": false, \"message\": \"API endpoint not found\"}"

  /** The three configured pack names, in loading order. */
  function ConfiguredPackNames(config: Store): (r: seq<string>)
    ensures |r| == 3
    ensures forall i :: 0 <= i < 3 ==> r[i] == GetString(config, PackKeys[i], "")
  {
    [GetString(config, "resource_packs1", ""), GetString(config, "resource_packs2", ""),
     GetString(config, "resource_packs3", "")]
  }

  /** The request line, when the input has one. */
  function RequestLine(input: string): Option<string> {
    match ReadLine(input, 0)
    case None => None
    case Some(line) => Some(line.text)
  }

  /** Where the reader stands after the request line. */
  function AfterRequestLine(input: string): (pos: nat)
    ensures pos <= |input|
  {
    match ReadLine(input, 0)
    case None => 0
    case Some(line) => line.next
  }

  class SeniorResourcePacks {
    var resourcePacks: seq<PackInfo>
    var baseUrl: string
    var httpPort: int
    var serverRunning: bool
    /** The configuration in memory (getConfig). */
    var config: Store
    /** The configuration file (what saveConfig writes and reloadConfig
        reads back). */
    var saved: Store

    /** The plugin as loaded, with its configuration file read. */
    constructor(file: Store)
      ensures config == file && saved == file
      ensures resourcePacks == [] && baseUrl == "" && httpPort == 0 && !serverRunning
    {
      config := file;
      saved := file;
      resourcePacks := [];
      baseUrl := "";
      httpPort := 0;
      serverRunning := false;
    }

    /** startSimpleHttpServer without the socket and the accept thread:
        the port comes from the configuration, the address from
        detectServerIp; `bindOk` says whether the socket could be bound,
        and `fallbackUrl` is the pack folder's file URL used when it could
        not (a port outside 0..65535 always fails). */
    method StartSimpleHttpServer(p: Address.Probes, bindOk: bool, fallbackUrl: string)
      modifies this`httpPort, this`baseUrl, this`serverRunning
      ensures httpPort == GetInt(config, "http_port", 8080)
      ensures bindOk && 0 <= httpPort <= 65535 ==>
                && serverRunning
                && baseUrl == ServerUrl(Address.ResolveAddress(GetString(config, "server_ip", ""), p), httpPort)
      ensures !(bindOk && 0 <= httpPort <= 65535) ==>
                baseUrl == fallbackUrl && serverRunning == old(serverRunning)
    {
      httpPort := GetInt(config, "http_port", 8080);
      var serverIp := Address.DetectServerIp(GetString(config, "server_ip", ""), p);
      if bindOk && 0 <= httpPort <= 65535 {
        baseUrl := "http://" + serverIp + ":" + Dec(httpPort) + "/";
        serverRunning := true;
      } else {
        baseUrl := fallbackUrl;
      }
    }

    /** onDisable: the server stops. */
    method OnDisable()
      modifies this`serverRunning
      ensures !serverRunning
    {
      serverRunning := false;
    }

    /** loadSinglePack: appends the entry for `name`, if it loads. */
    method LoadSinglePack(name: string, folder: Folder, digest: seq<Byte> -> seq<Byte>)
      modifies this`resourcePacks
      ensures resourcePacks == old(resourcePacks) + OptionList(PackFor(name, folder, baseUrl, digest))
    {
      if name != "" && name in folder {
        match folder[name]
        case Regular(data) =>
          var hash := digest(data);
          resourcePacks := resourcePacks + [PackInfo(name, baseUrl + name, hash)];
        case _ =>
      }
    }

    /** loadResourcePacks: clears the list and loads the three configured
        names in order. The result holds at most three sound entries. */
    method LoadResourcePacks(folder: Folder, digest: seq<Byte> -> seq<Byte>)
      modifies this`resourcePacks
      ensures resourcePacks == LoadedPacks(ConfiguredPackNames(config), folder, baseUrl, digest)
      ensures |resourcePacks| <= 3
      ensures forall i :: 0 <= i < |resourcePacks| ==>
                SoundEntry(resourcePacks[i], ConfiguredPackNames(config), folder, baseUrl, digest)
    {
      var names := ConfiguredPackNames(config);
      resourcePacks := [];
      LoadSinglePack(GetString(config, "resource_packs1", ""), folder, digest);
      LoadSinglePack(GetString(config, "resource_packs2", ""), folder, digest);
      LoadSinglePack(GetString(config, "resource_packs3", ""), folder, digest);
      LoadedPacksOfThree(names[0], names[1], names[2], folder, baseUrl, digest);
      assert names == [names[0], names[1], names[2]];
      LoadedPacksSound(names, folder, baseUrl, digest);
    }

    /** applyResourcePacks' choice for a player. */
    function PackForPlayer(): (r: Option<(PackInfo, bool)>)
      reads this
      ensures r.None? <==> resourcePacks == []
    {
      PackToApply(resourcePacks, GetBoolean(config, "force_pack", false))
    }

    /** handleConfigUpdate: reads the header lines and the body after the
        request line, extracts the four fields and writes them in order;
        server_ip is written before the port is parsed, and the file is
        saved only when everything succeeded. */
    method HandleConfigUpdate(input: string, pos: nat) returns (r: Response)
      requires pos <= |input|
      modifies this`config, this`saved
      ensures config == Applied(old(config), ConfigUpdate(input, pos))
      ensures saved == if ConfigUpdate(input, pos).Updated? then config else old(saved)
      ensures r == UpdateResponse(ConfigUpdate(input, pos))
    {
      var scan := ReadHeaders(input, pos);
      if scan.ScanFailed? {
        return JsonResponse(500, ErrorJson(scan.message));
      }
      var body := ReadBody(input, scan.next, scan.length);
      r := ApplyConfigBody(body);
    }

    /** The second half of handleConfigUpdate: the four fields are read
        from the body and written. */
    method ApplyConfigBody(body: string) returns (r: Response)
      modifies this`config, this`saved
      ensures config == Applied(old(config), UpdateOf(body))
      ensures saved == if UpdateOf(body).Updated? then config else old(saved)
      ensures r == UpdateResponse(UpdateOf(body))
    {
      var serverIp := ExtractJsonValue(body, "server_ip");
      var httpPortText := ExtractJsonValue(body, "http_port");
      var forceText := ExtractJsonValue(body, "force_pack");
      var autoText := ExtractJsonValue(body, "auto_apply");
      r := WriteConfig(serverIp, httpPortText, forceText, autoText);
    }

    /** The writes of handleConfigUpdate, one by one: server_ip first, so a
        port that is not a number stops them after server_ip; then the
        port, the two flags (true only for the text "true") and the save. */
    method WriteConfig(serverIp: string, httpPortText: string, forceText: string, autoText: string)
        returns (r: Response)
      modifies this`config, this`saved
      ensures var u := UpdateOfFields(serverIp, httpPortText, forceText, autoText);
              && config == Applied(old(config), u)
              && saved == (if u.Updated? then config else old(saved))
              && r == UpdateResponse(u)
    {
      var forcePack := forceText == "true";
      var autoApply := autoText == "true";
      config := config["server_ip" := Str(serverIp)];
      var port := ParseInt(httpPortText);
      if port.None? {
        return JsonResponse(500, ErrorJson(NumberFormatMessage(httpPortText)));
      }
      config := config["http_port" := Int(port.value)];
      config := config["force_pack" := Bool(forcePack)];
      config := config["auto_apply_all_worlds" := Bool(autoApply)];
      saved := config;
      r := JsonResponse(200, SuccessJson);
    }

    /** The header loop of handleConfigUpdate: lines up to the first empty
        one; a length header that cannot be read ends it with the
        exception's message. */
    static method ReadHeaders(input: string, pos: nat) returns (scan: Scan)
      requires pos <= |input|
      ensures scan == ScanHeaders(input, pos, 0)
    {
      var at := pos;
      var length := 0;
      var line := ReadLine(input, at);
      while line.Some? && line.value.text != ""
        invariant pos <= at <= |input|
        invariant line == ReadLine(input, at)
        invariant ScanHeaders(input, pos, 0) == ScanHeaders(input, at, length)
        decreases |input| - at
      {
        if IsLengthHeader(line.value.text) {
          var h := HeaderLength(line.value.text);
          if h.LengthError? {
            return ScanFailed(h.message);
          }
          length := h.n;
        }
        at := line.value.next;
        line := ReadLine(input, at);
      }
      var next := if line.Some? then line.value.next else at;
      scan := Scanned(length, next);
    }

    /** handlePluginReload: reads the file back and rebuilds the pack
        list. */
    method HandlePluginReload(folder: Folder, digest: seq<Byte> -> seq<Byte>) returns (r: Response)
      modifies this`config, this`resourcePacks
      ensures config == saved
      ensures resourcePacks == LoadedPacks(ConfiguredPackNames(saved), folder, baseUrl, digest)
      ensures r == JsonResponse(200, ReloadedJson)
    {
      config := saved;
      LoadResourcePacks(folder, digest);
      r := JsonResponse(200, ReloadedJson);
    }

    /** handleApiRequest. */
    method HandleApiRequest(verb: string, path: string, input: string, pos: nat,
                            folder: Folder, digest: seq<Byte> -> seq<Byte>) returns (r: Response)
      requires pos <= |input|
      modifies this`config, this`saved, this`resourcePacks
      ensures ApiRoute(verb, path) == ApiConfig ==>
                && config == Applied(old(config), ConfigUpdate(input, pos))
                && saved == (if ConfigUpdate(input, pos).Updated? then config else old(saved))
                && r == UpdateResponse(ConfigUpdate(input, pos))
                && resourcePacks == old(resourcePacks)
      ensures ApiRoute(verb, path) == ApiReload ==>
                && config == old(saved) && saved == old(saved)
                && resourcePacks == LoadedPacks(ConfiguredPackNames(old(saved)), folder, baseUrl, digest)
                && r == JsonResponse(200, ReloadedJson)
      ensures ApiRoute(verb, path) == ApiNotFound ==>
                && r == JsonResponse(404, NotFoundJson)
                && config == old(config) && saved == old(saved) && resourcePacks == old(resourcePacks)
    {
      var route := ApiRoute(verb, path);
      if route == ApiConfig {
        r := HandleConfigUpdate(input, pos);
      } else if route == ApiReload {
        r := HandlePluginReload(folder, digest);
      } else {
        r := JsonResponse(404, NotFoundJson);
      }
    }

    /** The status page's values for the current state. */
    function CurrentView(folder: Folder, listing: Option<seq<string>>): Option<StatusView>
      reads this
    {
      View(serverRunning, httpPort, resourcePacks, baseUrl, folder, listing, config)
    }

    /** handleHttpRequest over the whole input text of one connection:
        `folder` is the pack folder, `listing` what listFiles returns for
        it, `digest` the hash function and `render` the page's HTML. */
    method HandleHttpRequest(input: string, folder: Folder, listing: Option<seq<string>>,
                             digest: seq<Byte> -> seq<Byte>, render: StatusView -> string) returns (r: Response)
      modifies this`config, this`saved, this`resourcePacks
      ensures var route := RouteOf(RequestLine(input));
              && (route == Drop ==> r == NoResponse)
              && (route == BadMethod ==> r == ErrorResponse(405, "Method Not Allowed"))
              && (route == StatusPage ==>
                    r == match old(CurrentView(folder, listing))
                         case None => NoResponse
                         case Some(v) => PageResponse(render(v)))
              && (route.StaticFile? ==> r == ServeStatic(folder, route.name))
              && (route == ApiNotFound ==> r == JsonResponse(404, NotFoundJson))
              && (route == ApiConfig ==>
                    && r == UpdateResponse(ConfigUpdate(input, AfterRequestLine(input)))
                    && config == Applied(old(config), ConfigUpdate(input, AfterRequestLine(input)))
                    && saved == (if ConfigUpdate(input, AfterRequestLine(input)).Updated? then config else old(saved))
                    && resourcePacks == old(resourcePacks))
              && (route == ApiReload ==>
                    && r == JsonResponse(200, ReloadedJson)
                    && config == old(saved) && saved == old(saved)
                    && resourcePacks == LoadedPacks(ConfiguredPackNames(old(saved)), folder, baseUrl, digest))
              && (route != ApiConfig && route != ApiReload ==>
                    config == old(config) && saved == old(saved) && resourcePacks == old(resourcePacks))
    {
      var requestLine := ReadLine(input, 0);
      if requestLine.None? {
        return NoResponse;
      }
      var tokens := JavaSplit(requestLine.value.text, " ");
      if |tokens| < 2 {
        return NoResponse;
      }
      var verb := tokens[0];
      var fileRequested := tokens[1];
      if verb != "GET" && verb != "POST" {
        return ErrorResponse(405, "Method Not Allowed");
      }
      if fileRequested == "/" || fileRequested == "/index" || fileRequested == "/index.html" {
        var view := CurrentView(folder, listing);
        if view.None? {
          return NoResponse;
        }
        return PageResponse(render(view.value));
      }
      if StartsWith(fileRequested, "/api/") {
        r := HandleApiRequest(verb, fileRequested, input, requestLine.value.next, folder, digest);
        return;
      }
      var filename := FileNameOf(fileRequested);
      r := ServeStatic(folder, filename);
    }
  }

  /** After a successful update the form shows the new port, while the
      status cell keeps showing the port the server was started on. */
  lemma FormShowsNewPortStatusShowsOld(running: bool, port: int, packs: seq<PackInfo>, baseUrl: string,
                                       folder: Folder, listing: Option<seq<string>>, config: Store, u: Update)
    requires u.Updated? && ShownHost(baseUrl).Some?
    ensures var v := View(running, port, packs, baseUrl, folder, listing, Applied(config, u));
            && v.Some? && v.value.formPort == u.port && v.value.port == port
            && v.value.formIp == u.serverIp
            && v.value.formForce == u.forcePack && v.value.formAutoApply == u.autoApply
  {
  }
}
