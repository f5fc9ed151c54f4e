# SeniorResourcePacks, modelled in Dafny

SeniorResourcePacks is a Bukkit plugin for Minecraft servers. It serves
resource-pack `.zip` files from its own HTTP server, offers the first
configured pack to every joining player, and has a small web interface. That
interface shows a status page and accepts configuration changes through a
JSON API.

This project models the plugin's decision logic. The sockets, the Bukkit host
and the HTML markup are left out. Each part has its own module:

- `JavaText` (text.dfy): the Java string operations the plugin relies on,
  stated exactly. It covers `String.split` with a literal separator
  (trailing empty pieces are dropped), `indexOf`, `lastIndexOf`, `trim`,
  ASCII `toLowerCase`, `Integer.parseInt` with its exception messages, and
  integer-to-text conversion.
- `JsonScan` (json_scan.dfy): `extractJsonValue`, the ad-hoc JSON field
  scanner. A method walks string indices the way the source does and is
  proved equal to the specification function `JsonValue`.
- `Http` (http.dfy): the `Response` datatype and the builders
  `sendErrorResponse`, `sendJsonResponse` and the file and page responses.
  It also covers the wire form (status line, headers, blank line, body),
  `BufferedReader.readLine`, request-line routing and static file serving.
- `Settings` (settings.dfy): the configuration as a map from keys to YAML
  values, read through Bukkit's `getString`, `getInt` and `getBoolean`.
- `Packs` (packs.dfy): how the pack list is built from the three configured
  names, and which pack a player is given.
- `StatusPage` (status_page.dfy): the values the status page computes. These
  are `formatFileSize`, the host taken from `baseUrl`, the listing filter,
  the loaded/available flag and the initial values of the configuration form.
- `ConfigApi` (config_api.dfy): `POST /api/config`. It covers the header
  loop and its `Content-Length`, the body read, the four extracted fields,
  the order of the configuration writes and the JSON reply.
- `Address` (address.dfy): `detectServerIp` and its strategies. It covers
  the external lookup services with the dotted-quad shape check, the
  environment variables, the Bukkit IP and the network-interface scan. It
  also covers `isPublicIP`, `isPrivateIP` and `isInRange172`.
- `Plugin` (plugin.dfy): the plugin object. It is a class whose fields are
  the pack list, `baseUrl`, `httpPort`, `serverRunning`, the configuration in
  memory and the configuration file. Its methods update those fields the way
  the source's handlers do.

Everything the source gets from outside becomes a parameter:

- the pack folder is a map from file names to entries (regular file with
  bytes, unreadable file, directory);
- `listFiles` is an optional sequence of names;
- SHA-1 is a function on byte sequences;
- the lookup services are a function from URL to reply;
- the environment is a map;
- the interface list is optional, with `None` when enumeration throws;
- the page's HTML is a function of the computed values;
- the request is the whole text the client sent.

## Model

Source paths are relative to the repository root.

| member | source | states |
|---|---|---|
| JsonScan.ExtractJsonValue | src/main/java/com/seniorresourcepacks/SeniorResourcePacks.java:554-584 | The scanner returns exactly `JsonValue(json, key)`. It finds the first `"key":`, its whitespace loop stops at the first non-whitespace character, and the value is read there. |
| JsonScan.ReadValueAt | src/main/java/com/seniorresourcepacks/SeniorResourcePacks.java:562-583 | The value read at a position is `ValueAt`: text up to the next quote, the maximal letter/digit run after `t`/`f`, the maximal digit/dot run after a digit, or "" at the end or before any other character. |
| JsonScan.JsonValueIsSubstring | src/main/java/com/seniorresourcepacks/SeniorResourcePacks.java:554-584 | Whatever the scanner returns is a substring of the input. |
| JsonScan.ReadsQuotedValue | src/main/java/com/seniorresourcepacks/SeniorResourcePacks.java:565-568 | Take a body made of a prefix without the marker, the marker, whitespace, a quoted text without quotes, then anything. The scanner returns that text, with no escape handling. |
| JsonScan.ReadsUnclosedQuote | src/main/java/com/seniorresourcepacks/SeniorResourcePacks.java:565-568 | When the value opens with a quote that is never closed, the scanner returns "". |
| JsonScan.ReadsWordValue | src/main/java/com/seniorresourcepacks/SeniorResourcePacks.java:569-574 | After the marker and whitespace, a run of letters and digits that starts with `t` or `f` and is not followed by another one is returned whole. |
| JsonScan.ReadsNumberValue | src/main/java/com/seniorresourcepacks/SeniorResourcePacks.java:575-580 | After the marker and whitespace, a maximal run of digits and dots that starts with a digit is returned whole. |
| JsonScan.ReadsNothingElse | src/main/java/com/seniorresourcepacks/SeniorResourcePacks.java:562-583 | When only whitespace follows the marker, or the next character is not a quote, `t`, `f` or a digit, the result is "". |
| JsonScan.ReadsNothingWithoutMarker | src/main/java/com/seniorresourcepacks/SeniorResourcePacks.java:556-557 | A body without `"key":` gives "". |
| Http.ErrorResponse | src/main/java/com/seniorresourcepacks/SeniorResourcePacks.java:223-232 | The status code is the given one and the reason phrase is the message itself. The body is the message's bytes and `Content-Length` is its length. |
| Http.JsonResponse | src/main/java/com/seniorresourcepacks/SeniorResourcePacks.java:542-552 | The reason phrase is "OK" for every code. The body is the JSON's bytes and `Content-Length` is their number. |
| Http.FileResponse | src/main/java/com/seniorresourcepacks/SeniorResourcePacks.java:189-198 | The response is 200 "OK", the body is exactly the file's bytes, and `Content-Length` is their number. |
| Http.PageResponse | src/main/java/com/seniorresourcepacks/SeniorResourcePacks.java:464-473 | The response is 200 "OK", the body is the page's bytes, and `Content-Length` is their number. |
| Http.FramedDeclaresLength | src/main/java/com/seniorresourcepacks/SeniorResourcePacks.java:543-547 | A response built with one `Content-Length` header declares exactly its body's length. |
| Http.WireSplitsAtDeclaredLength | src/main/java/com/seniorresourcepacks/SeniorResourcePacks.java:543-551 | On the wire, the last `Content-Length` bytes are the body. Everything before them is the status line and the headers, ended by a blank line. |
| Http.ReadLine | src/main/java/com/seniorresourcepacks/SeniorResourcePacks.java:151-152 | `readLine` returns null exactly at the end of the input; otherwise the reader moves forward. |
| Http.ReadsCrLfLine | src/main/java/com/seniorresourcepacks/SeniorResourcePacks.java:494 | A line ended by CR LF is read as its text, and the reader moves past both characters. |
| Http.ReadsLoneBreakLine | src/main/java/com/seniorresourcepacks/SeniorResourcePacks.java:151 | A line ended by a lone LF, or by a CR not followed by LF, is read as its text, and the reader moves past that one character. |
| Http.ReadsLastLine | src/main/java/com/seniorresourcepacks/SeniorResourcePacks.java:151 | A last line without a line break is read whole, and the reader stops at the end of the input. |
| Http.RequestLineRoute | src/main/java/com/seniorresourcepacks/SeniorResourcePacks.java:154-158 | The request line "verb path rest" is routed on its first two space-separated tokens. |
| Http.RouteOf | src/main/java/com/seniorresourcepacks/SeniorResourcePacks.java:151-158 | A request line gets a response only when it is present and contains a space; a line `verb path rest` is routed as `Dispatch` routes its verb and path (see `RequestLineRoute` and `RoutingTable`). |
| Http.Dispatch | src/main/java/com/seniorresourcepacks/SeniorResourcePacks.java:160-179 | Every two-token line gets a response. It is 405 exactly when the verb is neither GET nor POST. The status page is chosen exactly for GET or POST on `/`, `/index` or `/index.html`, and the API exactly for GET or POST under `/api/`. Every other GET or POST path is the static file named by what follows the path's last `/`. |
| Http.DispatchTable | src/main/java/com/seniorresourcepacks/SeniorResourcePacks.java:160-179 | The same routing table (`RouteTable`) holds for the route `Dispatch` chooses from a method and a path. |
| Http.RoutingTable | src/main/java/com/seniorresourcepacks/SeniorResourcePacks.java:154-179 | For a request line `verb path rest`, the full routing table: 405 exactly for another verb, the status page exactly for the three index paths, each API endpoint exactly for POST on its path, 404 for any other `/api/` path, and otherwise the file after the path's last `/`. |
| Http.SingleTokenLineIsDropped | src/main/java/com/seniorresourcepacks/SeniorResourcePacks.java:154-155 | A request line made of one word without spaces, followed by any number of spaces, gets no response: the split drops the trailing empty pieces, leaving fewer than two tokens. |
| Http.ApiEndpoints | src/main/java/com/seniorresourcepacks/SeniorResourcePacks.java:476-484 | Under `/api/`, the config handler runs exactly for POST `/api/config` and reload runs exactly for POST `/api/reload`; everything else, GET included, is 404. |
| Http.ApiRoute | src/main/java/com/seniorresourcepacks/SeniorResourcePacks.java:476-484 | An API path leads to the config handler, the reload handler or 404, and a handler only for POST. |
| Http.FileNameHasNoSlash | src/main/java/com/seniorresourcepacks/SeniorResourcePacks.java:179 | The file name is a suffix of the path without `/`, and it is either the whole path or what follows a `/`, so it starts right after the last one. |
| Http.ServeStaticOutcome | src/main/java/com/seniorresourcepacks/SeniorResourcePacks.java:183-210 | The response is 200 with the file's bytes exactly for a regular file named with a case-sensitive `.zip`. It is 404 "File not found: name", with that message as body, exactly when the entry is missing, a directory, or not `.zip`. |
| Http.ServeStatic | src/main/java/com/seniorresourcepacks/SeniorResourcePacks.java:179-210 | The static-file reply is always a response with code 200, 404 or 500, whose `Content-Length` is its body's length. |
| Settings.GetString | src/main/java/com/seniorresourcepacks/SeniorResourcePacks.java:750-752 | A missing key reads as the default, and a stored string reads as itself. |
| Settings.GetInt | src/main/java/com/seniorresourcepacks/SeniorResourcePacks.java:387 | A stored integer reads as itself; anything else reads as the default. |
| Settings.GetBoolean | src/main/java/com/seniorresourcepacks/SeniorResourcePacks.java:392 | A stored boolean reads as itself; anything else reads as the default. |
| Settings.SetThenGet | src/main/java/com/seniorresourcepacks/SeniorResourcePacks.java:518-521 | After `set`, the matching getter returns the value set, and every other key reads as before. |
| Settings.IntRendersAsDigits | src/main/java/com/seniorresourcepacks/SeniorResourcePacks.java:519 | Any integer the update writes, negative ones included, reads through `getString` as its decimal text with its sign, and within the `int` range that text parses back to it. |
| Packs.PackFor | src/main/java/com/seniorresourcepacks/SeniorResourcePacks.java:761-778 | A name gives an entry exactly when it is non-empty and names a regular file that can be read and hashed. |
| Packs.LoadedPacks | src/main/java/com/seniorresourcepacks/SeniorResourcePacks.java:747-759 | The list has at most one entry per configured name. |
| Packs.LoadedPacksOfThree | src/main/java/com/seniorresourcepacks/SeniorResourcePacks.java:754-756 | The list for the three names is the entry of the first, then of the second, then of the third. |
| Packs.LoadedPacksSound | src/main/java/com/seniorresourcepacks/SeniorResourcePacks.java:766-769 | Every entry names a configured, regular file, downloads from `baseUrl + name`, and carries the digest of that file's bytes. |
| Packs.FirstLoadedIsFirstLoadable | src/main/java/com/seniorresourcepacks/SeniorResourcePacks.java:747-759 | The first entry comes from the first configured name that loads. |
| Packs.NothingLoadable | src/main/java/com/seniorresourcepacks/SeniorResourcePacks.java:747-759 | The list is empty exactly when no configured name loads. |
| Packs.DuplicatesKept | src/main/java/com/seniorresourcepacks/SeniorResourcePacks.java:754-756 | One loadable file named under all three keys gives three equal entries. |
| Packs.PackToApply | src/main/java/com/seniorresourcepacks/SeniorResourcePacks.java:844-862 | Nothing is applied exactly when the list is empty. Otherwise element 0 is applied, with the `force_pack` flag passed through. |
| Packs.AppliedPackIsFirstLoadable | src/main/java/com/seniorresourcepacks/SeniorResourcePacks.java:852-862 | A player is offered the pack of the first configured name that loads, at `baseUrl + name`. |
| StatusPage.SizeUnit | src/main/java/com/seniorresourcepacks/SeniorResourcePacks.java:586-590 | The unit is B, KB or MB. It is B for every size under 1024, 0 included; otherwise it is at most the size, and below MB the size is under 1024 units. |
| StatusPage.FormatFileSize | src/main/java/com/seniorresourcepacks/SeniorResourcePacks.java:586-590 | The text is the size divided by its unit, in decimal, a space, and the unit's name. |
| StatusPage.FormatFileSizeBrackets | src/main/java/com/seniorresourcepacks/SeniorResourcePacks.java:586-590 | The figure is the size in that unit rounded down: it times the unit is at most the size, one more is beyond it, and below MB it is under 1024. |
| StatusPage.ShownHost | src/main/java/com/seniorresourcepacks/SeniorResourcePacks.java:342 | Without "://" in the base URL the cell shows "Auto". With it, a shown host contains no colon. |
| StatusPage.View | src/main/java/com/seniorresourcepacks/SeniorResourcePacks.java:325-399 | The page is produced exactly when the host expression does not throw. It then shows that host and the port the server started on, and has one row per listed file, or none without a listing. |
| StatusPage.ShownHostOfServerUrl | src/main/java/com/seniorresourcepacks/SeniorResourcePacks.java:342 | For the URL the running server advertises, the "Server IP" cell shows exactly the detected address, when that address has no colon. |
| StatusPage.BareSchemeBreaksPage | src/main/java/com/seniorresourcepacks/SeniorResourcePacks.java:342 | With a base URL of `http://`, the host expression throws, so the page is not sent. |
| StatusPage.Listed | src/main/java/com/seniorresourcepacks/SeniorResourcePacks.java:350 | Every listed name is one of the folder's names and its lower-case form ends in `.zip`. |
| StatusPage.ListedComplete | src/main/java/com/seniorresourcepacks/SeniorResourcePacks.java:350 | Every folder name whose lower-case form ends in `.zip` is listed. |
| StatusPage.IsLoaded | src/main/java/com/seniorresourcepacks/SeniorResourcePacks.java:355 | A file is "Loaded" exactly when some loaded pack has its name. |
| StatusPage.Rows | src/main/java/com/seniorresourcepacks/SeniorResourcePacks.java:354-363 | The table has one row per listed file. |
| StatusPage.RowsShowLoadedState | src/main/java/com/seniorresourcepacks/SeniorResourcePacks.java:354-360 | Each row names a listed file and is marked loaded exactly when a loaded pack has that name. |
| StatusPage.ListedButRefused | src/main/java/com/seniorresourcepacks/SeniorResourcePacks.java:184 | A name that passes the case-insensitive listing filter but does not end in `.zip` is answered with 404 when downloaded. |
| StatusPage.UpperCaseZipIsListed | src/main/java/com/seniorresourcepacks/SeniorResourcePacks.java:350 | "PACK.ZIP" passes the listing filter but not the serving check. |
| StatusPage.DownloadLinkServesFile | src/main/java/com/seniorresourcepacks/SeniorResourcePacks.java:361 | The request line `verb /name rest`, sent for a listed name without `/` or space with GET or POST, is routed to that very file. |
| ConfigApi.LastLengthWins | src/main/java/com/seniorresourcepacks/SeniorResourcePacks.java:494-498 | When every length header parses, the last one sets the body length. |
| ConfigApi.NoLengthHeaders | src/main/java/com/seniorresourcepacks/SeniorResourcePacks.java:490-498 | Without a length header the length stays as it was (0 at the start). |
| ConfigApi.FirstBadLengthFails | src/main/java/com/seniorresourcepacks/SeniorResourcePacks.java:494-498 | The first length header that does not parse ends the scan with that exception's message. |
| ConfigApi.EmptyLengthHeaderFails | src/main/java/com/seniorresourcepacks/SeniorResourcePacks.java:496 | A length header with nothing after the colon fails with the index-out-of-bounds message for index 1 and length 1. |
| ConfigApi.LengthHeaderAnyCase | src/main/java/com/seniorresourcepacks/SeniorResourcePacks.java:495 | Any line whose first 15 characters lower-case to `content-length:` is a length header. |
| ConfigApi.HeaderLength | src/main/java/com/seniorresourcepacks/SeniorResourcePacks.java:496 | A length is read only from a line with a colon, and it lies within the range of a Java `int`. |
| ConfigApi.HeaderValue | src/main/java/com/seniorresourcepacks/SeniorResourcePacks.java:496 | A header `name: n`, with any blanks around the number (an optional minus sign, then digits), reads as exactly `n` for every `int` n. A second colon after the number cuts the value off there. |
| ConfigApi.ScanHeaders | src/main/java/com/seniorresourcepacks/SeniorResourcePacks.java:494-498 | A successful scan stops within the input, at or after where it started. |
| ConfigApi.ScanHeadersOfLines | src/main/java/com/seniorresourcepacks/SeniorResourcePacks.java:494-498 | For CR LF header lines ended by an empty line, the scan gives the length the headers determine and stops right after the blank line. A bad header gives its error. |
| ConfigApi.ReadBody | src/main/java/com/seniorresourcepacks/SeniorResourcePacks.java:501-505 | A length of 0 or less gives an empty body. A positive length `n` gives exactly `n` characters: character `i` is the input's character at the body start plus `i` where the input has one, and NUL beyond its end. |
| ConfigApi.ReadBodyExact | src/main/java/com/seniorresourcepacks/SeniorResourcePacks.java:501-505 | When the declared length is that of the rest of the input, the body read is exactly that rest. |
| ConfigApi.UpdateOf | src/main/java/com/seniorresourcepacks/SeniorResourcePacks.java:512-519 | An update past the headers never is a header error. Its `server_ip` is the extracted value, and it succeeds exactly when the extracted port parses as an `int`. |
| ConfigApi.Applied | src/main/java/com/seniorresourcepacks/SeniorResourcePacks.java:518-521 | The update changes no key other than the four it writes, and every key it writes is present afterwards. |
| ConfigApi.UpdateResponse | src/main/java/com/seniorresourcepacks/SeniorResourcePacks.java:524-528 | The reply is a response whose `Content-Length` is its body's length. Its code is 200 exactly on success and 500 exactly otherwise. |
| ConfigApi.MissingPortIsRefused | src/main/java/com/seniorresourcepacks/SeniorResourcePacks.java:512-528 | A body without `http_port` is refused with 500 and the `For input string: ""` message, yet `server_ip` has already been written in memory. |
| ConfigApi.FlagsAreExactlyTrue | src/main/java/com/seniorresourcepacks/SeniorResourcePacks.java:514-521 | After a successful update, `force_pack` and `auto_apply_all_worlds` are true exactly when the extracted text is "true", and the port is the parsed value. |
| ConfigApi.UpdateOutcome | src/main/java/com/seniorresourcepacks/SeniorResourcePacks.java:518-521 | A header error leaves the configuration untouched. Every other outcome makes `server_ip` read as the extracted value. A bad port leaves `http_port` reading as before. A success makes the port, `force_pack` and `auto_apply_all_worlds` read as the update's values. |
| Address.PrivateQuadIsRfc1918 | src/main/java/com/seniorresourcepacks/SeniorResourcePacks.java:727-745 | On dotted quads, `isPrivateIP` holds exactly for 10/8, 172.16/12 and 192.168/16. |
| Address.IsInRange172 | src/main/java/com/seniorresourcepacks/SeniorResourcePacks.java:734-745 | A text in the 172 range contains a dot. |
| Address.SecondFieldRange | src/main/java/com/seniorresourcepacks/SeniorResourcePacks.java:734-745 | For a dotted quad, the range check holds exactly when the second field is 16 to 31. |
| Address.IsPrivateIP | src/main/java/com/seniorresourcepacks/SeniorResourcePacks.java:727-732 | A private address never starts with `127.` and is never 0.0.0.0. |
| Address.IsPublicIP | src/main/java/com/seniorresourcepacks/SeniorResourcePacks.java:722-725 | A public address is not private, and an address that is not public is private, starts with `127.` or is 0.0.0.0. |
| Address.PublicQuad | src/main/java/com/seniorresourcepacks/SeniorResourcePacks.java:722-725 | On dotted quads, `isPublicIP` excludes exactly the private blocks, 127/8 and 0.0.0.0. |
| Address.QuadIsDottedQuad | src/main/java/com/seniorresourcepacks/SeniorResourcePacks.java:675 | Every address of four fields below 1000 passes the shape check, which does no range check. |
| Address.FirstAccepted | src/main/java/com/seniorresourcepacks/SeniorResourcePacks.java:661-685 | Any address the lookup accepts has the dotted-quad shape. |
| Address.FirstAcceptedIsFirst | src/main/java/com/seniorresourcepacks/SeniorResourcePacks.java:661-687 | The lookup fails exactly when no service's reply is accepted. Otherwise it returns the reply of a service that no earlier service's reply was accepted before. |
| Address.GetExternalIP | src/main/java/com/seniorresourcepacks/SeniorResourcePacks.java:651-688 | The loop over the services returns the first accepted reply: status 200 and a trimmed first line of dotted-quad shape. |
| Address.FirstEnvValue | src/main/java/com/seniorresourcepacks/SeniorResourcePacks.java:612-624 | A value is found exactly when some variable is set, non-empty and not "localhost". The value found is that of the first such variable. |
| Address.FromEnvironment | src/main/java/com/seniorresourcepacks/SeniorResourcePacks.java:612-624 | The environment loop returns `FirstEnvValue` over the four variables in order. |
| Address.FirstPublic | src/main/java/com/seniorresourcepacks/SeniorResourcePacks.java:705-708 | The result is a public candidate, or nothing exactly when no candidate is public. |
| Address.FirstPrivate | src/main/java/com/seniorresourcepacks/SeniorResourcePacks.java:711-714 | The result is a private candidate, or nothing exactly when no candidate is private. |
| Address.ScanAddresses | src/main/java/com/seniorresourcepacks/SeniorResourcePacks.java:700-716 | The loop over one interface's addresses returns the first public candidate seen so far, and without one it keeps the first private candidate. |
| Address.GetBestNetworkIP | src/main/java/com/seniorresourcepacks/SeniorResourcePacks.java:690-720 | The nested scan returns the first public IPv4 non-loopback address of an up, non-loopback interface, else the first private one, else nothing. |
| Address.BestNetworkIPIsNotLoopback | src/main/java/com/seniorresourcepacks/SeniorResourcePacks.java:701-714 | The scan never returns a 127.x address. |
| Address.DetectServerIp | src/main/java/com/seniorresourcepacks/SeniorResourcePacks.java:592-649 | The result follows the priority chain: configured address, lookup services, environment, Bukkit IP, interface scan (unless 127.0.0.1), then "localhost". |
| Address.ResolveAddress | src/main/java/com/seniorresourcepacks/SeniorResourcePacks.java:592-649 | A configured address other than "" and 0.0.0.0 wins over every probe. Whatever is chosen is "localhost", the configured address, the Bukkit IP, a dotted quad, an environment value or an interface candidate. |
| Address.PrivateInterfaceIsFallback | src/main/java/com/seniorresourcepacks/SeniorResourcePacks.java:633-642 | When every other strategy fails, one up interface with one private address makes that address the one advertised. |
| Address.ResolvedAddressIsNonEmpty | src/main/java/com/seniorresourcepacks/SeniorResourcePacks.java:592-649 | The chain always yields a non-empty address, provided interface addresses are non-empty. |
| Plugin.ConfiguredPackNames | src/main/java/com/seniorresourcepacks/SeniorResourcePacks.java:750-752 | There are three names, those of `resource_packs1`, `resource_packs2` and `resource_packs3` in that order, with "" for a missing key. |
| Plugin.SeniorResourcePacks.StartSimpleHttpServer | src/main/java/com/seniorresourcepacks/SeniorResourcePacks.java:99-144 | `httpPort` is the configured port. When the socket binds, `baseUrl` is `http://address:port/` with the detected address and the server runs; otherwise `baseUrl` is the fallback and the running flag is unchanged. |
| Plugin.SeniorResourcePacks.OnDisable | src/main/java/com/seniorresourcepacks/SeniorResourcePacks.java:82-97 | The server is no longer running. |
| Plugin.SeniorResourcePacks.LoadSinglePack | src/main/java/com/seniorresourcepacks/SeniorResourcePacks.java:761-778 | The pack list is the old list followed by the entry for the name, if it loads. |
| Plugin.SeniorResourcePacks.LoadResourcePacks | src/main/java/com/seniorresourcepacks/SeniorResourcePacks.java:747-759 | The list is rebuilt from the three configured names in order. It has at most three entries, each sound. |
| Plugin.SeniorResourcePacks.PackForPlayer | src/main/java/com/seniorresourcepacks/SeniorResourcePacks.java:843-852 | A player gets nothing exactly when the pack list is empty. |
| Plugin.SeniorResourcePacks.HandleConfigUpdate | src/main/java/com/seniorresourcepacks/SeniorResourcePacks.java:486-530 | A failing header loop leaves configuration and file untouched and answers 500 with the exception's message. Otherwise the body of the declared length is handed on, so the store, the file and the reply are those the update outcome calls for. |
| Plugin.SeniorResourcePacks.ApplyConfigBody | src/main/java/com/seniorresourcepacks/SeniorResourcePacks.java:511-515 | The four values are extracted from the body, and the configuration, the file and the reply become those `Applied` and `UpdateResponse` give for `UpdateOf(body)`. |
| Plugin.SeniorResourcePacks.WriteConfig | src/main/java/com/seniorresourcepacks/SeniorResourcePacks.java:517-530 | server_ip is written before the port is parsed, so a port that is not a number leaves only that write and answers 500. Otherwise all four keys are written, the file is saved and the reply is 200. |
| Plugin.SeniorResourcePacks.ReadHeaders | src/main/java/com/seniorresourcepacks/SeniorResourcePacks.java:493-498 | The header loop computes `ScanHeaders`: the body length and the position after the blank line, or the parse error. |
| Plugin.SeniorResourcePacks.HandlePluginReload | src/main/java/com/seniorresourcepacks/SeniorResourcePacks.java:532-540 | The configuration is read back from the file, the packs are rebuilt from it, and the reply is 200 with the reload message. |
| Plugin.SeniorResourcePacks.HandleApiRequest | src/main/java/com/seniorresourcepacks/SeniorResourcePacks.java:476-484 | POST `/api/config` updates the configuration and saves it only on success. POST `/api/reload` reloads. Anything else is 404 with the state unchanged. |
| Plugin.SeniorResourcePacks.HandleHttpRequest | src/main/java/com/seniorresourcepacks/SeniorResourcePacks.java:146-221 | Each route gets its response and effect. A missing or short request line gets none, a bad verb gets 405, the three index paths get the page, and any other path is a static file; none of these changes state. `/api/config` changes the configuration, and the file only on success, but not the packs. `/api/reload` sets the configuration to the saved file. |
| Plugin.FormShowsNewPortStatusShowsOld | src/main/java/com/seniorresourcepacks/SeniorResourcePacks.java:383-399 | After a successful update the form shows the new values, while the status cell keeps the port the server started on. |

## Left out

- Sockets, the accept thread, the thread pool and shutdown are not modelled. `StartSimpleHttpServer` takes whether binding succeeded as `bindOk`. A port outside 0..65535 always fails to bind. Port 0, where the system picks a port, is not modelled.
- The `file://` fallback URL (`File.toURI`) is the parameter `fallbackUrl`. If building it throws, `baseUrl` would keep its old value; the model always uses the fallback.
- SHA-1 (`MessageDigest`) is the parameter `digest`. Its failure is not modelled apart from unreadable files, which make the read throw.
- The literal HTML, CSS and JavaScript of the status page are the parameter `render`. The model keeps only the computed values (`StatusView`).
- Bukkit event handlers, commands, permissions, chat colours and the join-time scheduling are host glue and are not modelled. `applyResourcePacks` is modelled only as its choice of pack and force flag.
- Text is ASCII. `Character.isDigit`, `isLetter`, `isWhitespace` and `toLowerCase` are restricted to ASCII, and `Integer.parseInt` does not accept non-ASCII digits. `getBytes()` is taken as one byte per character, so the charset is left out.
- `in.read(buffer)` is taken to read everything available at once; short reads are left out. Missing characters stay NUL, as in the `char[]` buffer.
- A `Content-Length` so large that allocating the buffer fails (`OutOfMemoryError`) is not modelled.
- Pack and file names containing `/` would resolve into sub-folders of the pack folder. The folder is a flat map from names to entries, so the model does not cover this.
- `File.length` of a directory is taken as 0.
- `saveConfig` and `reloadConfig` are modelled by the field `saved`, a copy of the configuration map. YAML formatting and I/O failures of the file are left out.
- YAML longs, doubles and other value types are left out. Values are strings, integers and booleans.
- A `null` `baseUrl` is represented as "" in the constructor. The status page is only reached after the server has started.
- The 500 reply of `handlePluginReload` is not modelled: with the model's total functions, nothing in it can throw.
- The real HTTP lookups, `System.getenv`, `getServer().getIp()` and the interface enumeration are the parameters in `Address.Probes`. A lookup that throws, times out or returns an empty body reads as a rejected reply.
- StatusPage.ShownHost: the contract gives "Auto" without "://" and a host without a colon; that the host is exactly the text after "://" up to the next colon is proved only for a URL the running server builds (`ShownHostOfServerUrl`) and for the bare `http://`.
- A listed file whose name contains a space is shown with a download link that never reaches it, because the request line is split at spaces; `DownloadLinkServesFile` covers names without spaces.
- Settings.GetString: its contract states only the missing-key and string cases; the rendering of integers and booleans is given by `Render` and by `IntRendersAsDigits`.
