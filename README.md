# webserv core in Dafny

A model of the request-handling core of *webserv*, a small HTTP/1.1 server written in C++98. The server runs a `select` loop over non-blocking sockets. `ServerManager` keeps this state:

- the listening sockets (one per distinct host and port of the configuration);
- for each client: the listening socket it came in on, a `ClientRequest` that accumulates what `recv` delivers, the response text being sent, and how much of it has gone out.

Once the blank line after the headers has arrived, `parse_headers` reads the request line, `Content-Length` and `Transfer-Encoding`. It also fixes the body-size limit from the best-matching location. The reader answers 413 when that limit is exceeded. When the request is complete it calls `prepare_response`. That function parses the request, follows the router, and builds an `HttpResponse`:

- the router (`resolve_path`) cleans and normalises the path, picks the longest matching location, and applies its redirection, method table, root, alias, index and autoindex settings and the directory rules;
- `HttpResponse` serves a file, a directory listing or the gallery page, accepts an upload, or answers an empty DELETE;
- on an error, the configured error page or a default one is used.

`_handle_write` sends the response in pieces. Once it is sent, the client is removed or put back to reading.

The model has one module per component:

| module | file | models |
|---|---|---|
| `Text` | text.dfy | the `std::string` search operations and the `<cctype>` conversions the code uses |
| `Utils` | utils.dfy | utils.cpp |
| `Paths` | paths.dfy | paths.cpp |
| `Records` | records.dfy | the records the core reads (`Request`, `Location`, the file system) and the constants of include/paths.hpp |
| `Response` | response.dfy | HttpResponse.cpp |
| `CgiEnv` | cgi.dfy | the environment Cgi.cpp builds for a script |
| `Config` | config.dfy | ServerUnit.cpp |
| `Routing` | routing.dfy | the router and the response preparation of ServerManager.cpp |
| `Reader` | reader.dfy | `ClientRequest`, `parse_headers`, the reading loop and the body drain of ServerManager.cpp |
| `Manager` | manager.dfy | the `ServerManager` bookkeeping and its handlers |

The C++ functions take two forms in the model:

- Functions that loop or write into their arguments are Dafny methods. Each is proved equal to a specification function.
- Classes whose methods update fields (`HttpResponse`, `ServerUnit`, `Cgi` and `ServerManager`) are Dafny classes. Their methods are specified by a function from the old state to the new one.

The properties are lemmas about those specification functions. C++ behaviours that matter are modelled explicitly:

- an exception that escapes is modelled as a result value;
- `exit` is modelled as a halting outcome;
- `size_t` wraps modulo 2^64;
- the `uint16_t` port is truncated;
- `std::map::operator[]` supplies defaults.

Where the code's comments and its behaviour differ, the model follows the behaviour. Two cases stand out. The first: `_should_close_connection` calls `in_str(request, "Connection: close")`. `in_str(word, str)` asks whether `word` occurs in `str`. So the test asks whether the whole request text is a piece of the literal, not whether the request contains it. The model keeps that behaviour, and `Manager.ShouldCloseOnlyShortTexts` states what follows from it. The second: the comment in `buffer_has_final_chunk` says the start of the buffer is checked, but the code never checks it. `Reader.EmptyChunkedBodyNotSeen` states the consequence.

## Model

| member | source | states |
|---|---|---|
| Text.Find | src/utils.cpp:164-166 | `find` returns the first occurrence at or after the start position, or none when there is no occurrence there |
| Text.FindNoneIffAbsent | src/utils.cpp:164-166 | a search from the start fails exactly when the pattern is not a substring |
| Text.RFindChar | src/paths.cpp:35 | `rfind(c, upto)` returns the last index no later than `upto` that holds `c`, or none when there is no such index |
| Text.FindNotChar | src/utils.cpp:96 | `find_first_not_of` returns the first index at or after the start that holds another character, or none when every later character is `c` |
| Text.NatToStringDigits | src/utils.cpp:81-88 | the decimal rendering of a number is non-empty, holds only digits and reads back as the number |
| Text.NatToStringInjective | src/utils.cpp:81-88 | different numbers render differently |
| Text.NatToStringPlain | src/utils.cpp:81-88 | a rendered number holds only digits, so no line break, space or colon |
| Utils.Pop | src/utils.cpp:23-28 | an empty string stays empty; otherwise the result followed by the removed last character is the input |
| Utils.ToLower | src/utils.cpp:60-64 | same length as the input, each character mapped by `tolower` |
| Utils.ToUpper | src/utils.cpp:54-58 | same length as the input, each character mapped by `toupper` |
| Utils.LowerStrIdempotent | src/utils.cpp:60-64 | lower-casing twice gives the same result as lower-casing once |
| Utils.Capitalize | src/utils.cpp:40-52 | the result is the lower-cased input with the first character upper-cased, and with every character after a '-' at index 1 or later upper-cased |
| Utils.Strip | src/utils.cpp:66-79 | the leading and trailing runs of `c` are removed |
| Utils.StrippedShape | src/utils.cpp:66-79 | the result is a contiguous slice of the input, everything outside it is `c`, and it neither starts nor ends with `c` |
| Utils.StripIdempotent | src/utils.cpp:66-79 | stripping a second time changes nothing |
| Utils.ReadKey | src/utils.cpp:30-38 | the key is the text before the first ':' (the whole line when there is none), capitalized and stripped of spaces |
| Utils.ReadValue | src/utils.cpp:90-100 | the value is the text after the first ':', stripped of spaces; without a ':' the wrapped `npos + 1` makes it the whole line, and it is "" when only spaces follow |
| Utils.Split | src/utils.cpp:102-111 | the pieces between delimiters, as a `getline` loop yields them |
| Utils.TokensHaveNoDelimiter | src/utils.cpp:102-111 | no piece contains the delimiter |
| Utils.SplitJoin | src/utils.cpp:102-111 | when the input does not end with the delimiter, joining the pieces with it gives back the input |
| Utils.SkipSpace | src/utils.cpp:132-137 | the index reached is the first character that is not white space, and everything skipped is white space |
| Utils.SkipSpaceNl | src/utils.cpp:132-137 | the loop stops at the first character after the leading white space |
| Utils.ReadDigits | src/utils.cpp:127-128 | the digit loop stops at the end of the run of digits and has accumulated the decimal value of that run |
| Utils.FtAtoi | src/utils.cpp:113-130 | the result is the value of the optional sign and the digits after the leading white space |
| Utils.AtoiOfIntToString | src/utils.cpp:113-130 | `ft_atoi` reads back every signed number that `operator<<` prints |
| Utils.FtStoi | src/utils.cpp:146-159 | accepted exactly when the string has at most ten characters, all digits; the value read is at most INT_MAX |
| Utils.FtStoiOfNatToString | src/utils.cpp:146-159 | every number that fits in an int reads back as itself from its decimal rendering |
| Utils.InStr | src/utils.cpp:164-166 | `in_str(word, str)` holds exactly when `word` is a substring of `str` |
| Utils.ReplaceAll | src/utils.cpp:195-203 | the result is the left-to-right replacement of every non-overlapping occurrence; inserted text is not searched again |
| Utils.ReplaceAbsent | src/utils.cpp:195-203 | a string that does not contain the pattern is returned unchanged |
| Utils.RootMatchesAll | src/utils.cpp:217 | the location "/" matches every path |
| Utils.PathMatchesSelf | src/utils.cpp:213-229 | a location matches its own path, with or without a trailing slash on either side |
| Utils.PathMatchesInside | src/utils.cpp:226-227 | every path below a location matches it |
| Utils.PathMatchesPrefix | src/utils.cpp:213-229 | a path that matches a location other than "/" starts with the location's name and continues, if at all, with '/' |
| Utils.PathMatchesExamples | src/main.cpp:5-17 | each of the thirteen expectations written next to `path_matches` in `tests()` holds |
| Utils.MethodRoundTrip | src/utils.cpp:231-255 | every method survives the round trip through its name |
| Utils.MethodNameRoundTrip | src/utils.cpp:245-255 | a name is accepted exactly when it is one of the five method names, and then it round-trips |
| Utils.CiEqual | src/utils.cpp:257-263 | true exactly when the lengths agree and the characters agree position by position after `tolower` |
| Utils.CiEqualIsLowerEquality | src/utils.cpp:257-263 | case-insensitive equality is equality of the lower-cased strings |
| Utils.CiEqualReflexiveSymmetric | src/utils.cpp:257-263 | case-insensitive equality is reflexive and symmetric |
| Utils.CiEqualTransitive | src/utils.cpp:257-263 | case-insensitive equality is transitive |
| Utils.GetFileExtension | src/utils.cpp:269-274 | "" when there is no '.'; otherwise the suffix that starts at the last '.' and contains no other '.' |
| Paths.CleanPath | src/paths.cpp:7-13 | every "%20", searched from left to right, becomes a space |
| Paths.CleanPathDecodes | src/paths.cpp:7-13 | decoding inverts a client's encoding of spaces, for every path that does not itself contain "%20" |
| Paths.CollapseLoop | src/paths.cpp:23-25 | the first loop computes the repeated replacement of the first "//" by "/" |
| Paths.DotLoop | src/paths.cpp:27-29 | the second loop computes the repeated replacement of the first "/./" by "/" |
| Paths.DotDotStep | src/paths.cpp:31-42 | each pass of the third loop shortens the path, so the loop ends |
| Paths.DotDotLoop | src/paths.cpp:31-42 | the third loop computes the repeated resolution of the first "/../": a leading one is dropped, otherwise it removes the segment before it |
| Paths.PathNormalization | src/paths.cpp:19-44 | the result is the three loops applied in order |
| Paths.CollapseSlashesClean | src/paths.cpp:23-25 | no "//" is left after the first loop, and the path does not grow |
| Paths.RemoveDotSegmentsClean | src/paths.cpp:27-29 | the second loop leaves no "/./" and creates no "//" |
| Paths.ResolveDotDotClean | src/paths.cpp:31-42 | the third loop leaves none of "//", "/./" and "/../" |
| Paths.NormalizedClean | src/paths.cpp:15-44 | a normalised path holds no "//", no "/./" and no "/../", and is no longer than the input |
| Paths.NormalizedFixed | src/paths.cpp:19-44 | a path holding none of the three patterns is returned unchanged |
| Paths.NormalizedIdempotent | src/paths.cpp:19-44 | normalising a second time changes nothing |
| Paths.NormalizedLeadingDotDot | src/paths.cpp:32-33 | for every rest x, "/../" + x normalises as "/" + x does: a leading "/../" is dropped and cannot climb above the root |
| Paths.NormalizedTrailingDotDot | src/paths.cpp:19-43 | every path that starts with '/' and ends with "/.." still does after normalisation: the final "/.." is not a segment, and the '/' at the start bounds every `rfind` |
| Paths.NormalizedRelativeDotDot | src/paths.cpp:36-37 | without a leading '/', `rfind` finds nothing and everything up to the "/../" goes: "x/../.." normalises to ".." |
| Paths.NormalizedInnerDotDot | src/paths.cpp:34-40 | an inner "/../" takes the segment before it: when the first two loops have nothing to do and the first "/../" follows the segment seg, a + "/" + seg + "/../" + b normalises as a + "/" + b |
| Paths.NormalizedExample | src/paths.cpp:19-43 | "/a//b/./c/../d" normalises to "/a/b/d" |
| Response.WireFraming | src/HttpResponse.cpp:109-130 | a reader that splits at the first CRLFCRLF finds the end of the headers exactly where `toString` put it, and what follows is the body |
| Response.WireStatusLine | src/HttpResponse.cpp:109-111 | the first line of the serialised response is the status line |
| Response.WireReadsAs | src/HttpResponse.cpp:109-130 | a client reads the status line first and the body after the first blank line, and finds the Content-Type, Content-Length and Connection lines in the head |
| Response.DefaultErrorPageNamesError | src/HttpResponse.cpp:46-72 | the default error page names the code in its title and gives the code and reason in its text |
| Response.ErrorPageFieldsShape | src/HttpResponse.cpp:75-84 | the error page response has the given code, announces its own length, closes the connection, and has no Allow or Location header |
| Response.TargetOutcomeCases | src/HttpResponse.cpp:92-105 | codes 301 to 308 give an empty redirection to the target; other codes serve the target file, or raise 403 exactly when it cannot be read; the length announced always matches |
| Response.ContentTypeOfKnownExtension | src/HttpResponse.cpp:144-159 | for a name with a single '.', the substring test gives the type the extension table gives |
| Response.ExtensionOfSingleDotName | src/utils.cpp:269-274 | for such a name, `getFileExtension` reports that extension |
| Response.ContentTypeOfSourceMap | src/HttpResponse.cpp:147 | the test looks at the whole name, so "style.css.map" is served as CSS |
| Response.VisibleCounts | src/HttpResponse.cpp:247-250 | the listing keeps every `readdir` entry as often as it came, except ".", which never appears |
| Response.AutoindexLinksEntries | src/HttpResponse.cpp:239-266 | the listing page links every entry other than "." |
| Response.SpliceSingleMarker | src/HttpResponse.cpp:282-284 | when the page has one marker, replacing the first one is the same as replacing all |
| Response.SpliceKeepsLaterMarker | src/HttpResponse.cpp:282-284 | a second marker survives the gallery edit |
| Response.SpliceNoMarker | src/HttpResponse.cpp:282-284 | a page without the marker is served unchanged |
| Response.RequestOutcomeShape | src/HttpResponse.cpp:21-44 | a response built for a request announces its exact body length, sets no Allow or Location, and has status 200, 201 or 404; a failure is 400, 404, 500 or 501 |
| Response.NotImplementedIffUnknownMethod | src/HttpResponse.cpp:24-42 | 501 is raised exactly for a method other than GET, POST and DELETE |
| Response.PostUploadCases | src/HttpResponse.cpp:217-225 | an upload with no CGI handler is refused with 400 exactly when its body is empty, and is answered 201 otherwise |
| Response.DeleteCases | src/HttpResponse.cpp:29-35 | a DELETE always succeeds with an empty body and Content-Length 0: 404 and Connection: close when the query is empty, 200 and keep-alive otherwise |
| Response.GetServesFile | src/HttpResponse.cpp:161-198 | a GET for a readable ordinary file serves its bytes with the type its name suggests, status 200, and keeps the connection alive |
| Response.HttpResponse.Blank | src/HttpResponse.cpp:6-7 | a fresh response has status 0 "Empty" and empty headers |
| Response.HttpResponse.ErrorPage | src/HttpResponse.cpp:75-84 | the error constructor holds the default error page for the code |
| Response.HttpResponse.WithTarget | src/HttpResponse.cpp:92-105 | the redirection and error-page constructor yields a redirection, the page read from the target, or the 403 the read raises |
| Response.HttpResponse.ForRequest | src/HttpResponse.cpp:21-44 | the request constructor yields the response the method dispatch computes, or the code it raises |
| Response.HttpResponse.ResetAll | src/HttpResponse.cpp:11-19 | every field returns to its reset value: status 0 and Content-Length "0" |
| Response.HttpResponse.SetRedirectResponse | src/HttpResponse.cpp:296-304 | an empty kept-alive response with the code and a Location; nothing else changes |
| Response.HttpResponse.SetEmptyResponseAlive | src/HttpResponse.cpp:306-312 | an empty kept-alive response with the code; Allow and Location unchanged |
| Response.HttpResponse.SetEmptyResponseClose | src/HttpResponse.cpp:314-320 | an empty closing response with the code; Allow and Location unchanged |
| Response.HttpResponse.SetAllowMethods | src/HttpResponse.cpp:322-324 | sets only the Allow header |
| Response.HttpResponse.SetPage | src/HttpResponse.cpp:189-196 | a page body with its exact length, the given type and code, kept alive; Allow and Location unchanged |
| Response.HttpResponse.HandleGet | src/HttpResponse.cpp:161-198 | the listing, the photo detail page with its block, the gallery page, or the file with its content type; a file that cannot be found raises 404 |
| Response.HttpResponse.HandlePost | src/HttpResponse.cpp:200-233 | a location CGI answers 201; the upload endpoint refuses an empty body with 400 and otherwise answers 201; anything else gets an empty 200 |
| Response.HttpResponse.GenerateAutoindex | src/HttpResponse.cpp:239-266 | the listing page of the directory, or 500 when it cannot be opened |
| Response.HttpResponse.GenerateWebindex | src/HttpResponse.cpp:268-294 | the index page with the gallery in place of the first marker, or 404 when the page cannot be read |
| CgiEnv.EnvNamesSorted | src/Cgi.cpp:19-36 | the six variable names are in strictly ascending `std::string` order |
| CgiEnv.KeyOrderIsMapOrder | src/Cgi.cpp:79-81 | the map is iterated in strictly ascending key order, each key exactly once |
| CgiEnv.RequestEnvContents | src/Cgi.cpp:19-36 | the environment holds the method, query, path and version; CONTENT_TYPE is set exactly when the request has the header; CONTENT_LENGTH is the header's value, else the body's length |
| CgiEnv.EnvArrayShape | src/Cgi.cpp:77-87 | the `execve` environment has one "KEY=VALUE" entry per variable, in key order, followed by NULL |
| CgiEnv.Cgi.Init | src/Cgi.cpp:11-15 | a script path that is not empty gives an object with that path and an empty environment |
| CgiEnv.Cgi.Create | src/Cgi.cpp:11-15 | an empty script path is refused with `invalid_argument`; any other path gives a fresh object with an empty environment |
| CgiEnv.Cgi.SetEnvVariables | src/Cgi.cpp:19-36 | the environment is replaced by the one built for the request |
| CgiEnv.Cgi.BuildEnvp | src/Cgi.cpp:77-87 | the two loops produce the `execve` environment |
| Config.CheckSemicolon | src/ServerUnit.cpp:518-524 | accepted exactly when the token ends in ';', which is removed; for "" the check passes and `erase(npos)` raises `out_of_range` |
| Config.CheckSemicolonRoundTrip | src/ServerUnit.cpp:518-524 | the ';' added to a value is removed again by the check |
| Config.PortOutcomeSpec | src/ServerUnit.cpp:110-125 | accepted exactly for at most ten digits and a ';' with a value from 1 to 65636; the stored `uint16_t` is that value modulo 65536 |
| Config.PortWrapsAbove65535 | src/ServerUnit.cpp:122-124 | "65636;" passes the bound and is stored as port 100 |
| Config.BodySizeOutcomeSpec | src/ServerUnit.cpp:127-142 | accepted exactly for at most ten digits with a non-zero value; the value is between 1 and INT_MAX |
| Config.IndexOutcomeSpec | src/ServerUnit.cpp:144-151 | accepted exactly when the check passes and the index does not start with '/' |
| Config.AutoindexOutcomeSpec | src/ServerUnit.cpp:153-160 | only "on" and "off" are accepted; "on" sets the flag and "off" leaves it as it was |
| Config.ErrorPagesFromSpec | src/ServerUnit.cpp:173-199 | the loop succeeds exactly when every pair is acceptable, never drops a code, and adds only codes from 400 to 999 |
| Config.ErrorPagePairRange | src/ServerUnit.cpp:175-186 | an accepted pair has a three-digit code of at least 400 and the path without its ';' |
| Config.CollectMethods | src/ServerUnit.cpp:233-248 | the inner loop ends at a token within the list |
| Config.Step | src/ServerUnit.cpp:213-328 | one turn of the loop moves forward and keeps the path; a root it sets is a directory; an index it sets does not start with '/'; a handler it adds is well formed |
| Config.StepKeepsWellFormed | src/ServerUnit.cpp:213-328 | one turn of the loop keeps a block well formed: a directory root or none, an index not starting with '/', well-formed handlers |
| Config.WalkKeepsWellFormed | src/ServerUnit.cpp:213-328 | every block the loop produces has a directory root or none, an index not starting with '/', and well-formed handlers |
| Config.WalkInheritsBodySize | src/ServerUnit.cpp:318-332 | without a `client_max_body_size` directive the block keeps the size it started with |
| Config.LocationOutcomeSpec | src/ServerUnit.cpp:202-347 | an accepted location has the given path, which starts with '/' and is not the cgi-bin path; without its own limit it inherits the server's |
| Config.StepRejectsRepeat | src/ServerUnit.cpp:215-325 | a second root, methods, autoindex, index, return, alias or size directive is rejected as a duplicate |
| Config.StepRejectsDanglingKeyword | src/ServerUnit.cpp:326-327 | a keyword as the last token has no value and is rejected as an unknown token |
| Config.StepCgiEntry | src/ServerUnit.cpp:290-317 | when a cgi directive is accepted, and that it stores the script without "./" and moves three tokens on |
| Config.WalkExample | src/ServerUnit.cpp:213-332 | a typical location block is read into the expected record |
| Config.MethodsStepExample | src/ServerUnit.cpp:229-251 | "methods GET POST;" sets the method list to GET and POST and moves on to the token after "POST;" |
| Config.CgiStepExample | src/ServerUnit.cpp:290-317 | "cgi .py ./cgi-bin/run.py;" maps ".py" to "cgi-bin/run.py" |
| Config.ServerUnit.constructor | src/ServerUnit.cpp:3-14 | the fields start empty, with the default body size and the initial error codes mapped to "" |
| Config.ServerUnit.InitErrorPages | src/ServerUnit.cpp:56-73 | the initial codes map to ""; other codes and fields are unchanged |
| Config.ServerUnit.SetPort | src/ServerUnit.cpp:110-125 | stores the accepted port or reports the error, leaving the port unchanged; no other field changes |
| Config.ServerUnit.SetClientMaxBodySize | src/ServerUnit.cpp:127-142 | stores the accepted size or reports the error, leaving the size unchanged; no other field changes |
| Config.ServerUnit.SetIndex | src/ServerUnit.cpp:144-151 | stores the accepted index or reports the error, leaving it unchanged; no other field changes |
| Config.ServerUnit.SetAutoindex | src/ServerUnit.cpp:153-160 | stores the flag as the directive decides, or reports the error, leaving it unchanged; no other field changes |
| Config.ServerUnit.SetFd | src/ServerUnit.cpp:162-165 | stores the descriptor; no other field changes |
| Config.ServerUnit.SetErrorPages | src/ServerUnit.cpp:167-200 | the pages map becomes what the loop stores, and a rejected pair keeps the pairs before it; no other field changes; once the directive is accepted, getPathErrorPage of each pair's code gives its path unless a later pair names the code again |
| Config.ServerUnit.GetPathErrorPage | src/ServerUnit.cpp:492-501 | the page stored for the code, or "" for a code without one; what it gives after a directive is stated by ErrorPagesOutcomeStores |
| Config.ErrorPagesOutcomeStores | src/ServerUnit.cpp:492-501 | after setErrorPages accepts a directive, getPathErrorPage of each pair's code gives that pair's path, unless a later pair names the same code |
| Config.ErrorPagesFromStores | src/ServerUnit.cpp:173-199 | once the loop accepts every pair, each pair's code maps to its path unless a later pair names the code again |
| Config.ErrorPagesFromKeeps | src/ServerUnit.cpp:173-199 | the rest of the loop keeps the page of a code that no later pair names |
| Config.ServerUnit.SetLocation | src/ServerUnit.cpp:202-347 | an accepted block is appended to the locations; after a rejection they are unchanged; no other field changes |
| Config.ServerUnit.CheckLocations | src/ServerUnit.cpp:526-539 | true exactly when two locations share a path |
| Routing.BestLocation | src/ServerManager.cpp:503-520 | the index the loop settles on, if any, is a position of the list |
| Routing.BestLocationSpec | src/ServerManager.cpp:503-520 | none wins only when no location matches; otherwise the winner matches, no matching location is longer, and every earlier one is shorter |
| Routing.BestLocationPrefersLonger | src/ServerManager.cpp:511-516 | a strictly longer matching location always beats a shorter one, whatever their order |
| Routing.FindBestLocation | src/ServerManager.cpp:503-520 | the loop settles on the best location |
| Routing.ResolveRedirectsFirst | src/ServerManager.cpp:601-648 | `_apply_redirection`, called before `_apply_location_config`: a matched location with a return target answers 301 to that target whatever the method |
| Routing.LocationSettingsSpec | src/ServerManager.cpp:521-560 | an unknown method name ends the process; a method the table does not allow raises 405 with the printed methods; otherwise root, index, alias path and autoindex come from the location where it sets them |
| Routing.LocationOverridesAutoindex | src/ServerManager.cpp:557-559 | the location's autoindex setting replaces the server's, in either direction |
| Routing.ApplyLocationConfig | src/ServerManager.cpp:521-560 | updates the out-parameters as the settings function says, or reports what it throws |
| Routing.DirectoryOutcomeSpec | src/ServerManager.cpp:562-599 | a non-directory passes through; a directory without its trailing slash redirects; an existing index file is served; otherwise the listing when autoindex is on, and 404 when it is off |
| Routing.HandleDirectoryCase | src/ServerManager.cpp:562-599 | computes the directory outcome |
| Routing.ResolveUnderRoot | src/ServerManager.cpp:635-660 | without an alias the file is the root (the location's, else the server's) followed by the normalised path |
| Routing.ResolveThroughAlias | src/ServerManager.cpp:547-551 | with an alias the file is the alias followed by the path past the location's own name |
| Routing.ResolveDirectoryRedirect | src/ServerManager.cpp:573-577 | a request for a directory without its trailing slash is redirected to the slashed path |
| Routing.AliasPastEndIsFatal | src/ServerManager.cpp:548 | the location "/img/" with an alias, requested as "/img", matches, and then `substr` runs past the end and ends the process |
| Routing.ResolvePath | src/ServerManager.cpp:627-661 | resolution yields the routed request or the signal that interrupts it |
| Routing.ErrorResponseCases | src/ServerManager.cpp:732-767 | with no configured page, 500 ends the process; 400 gets the fixed reply, which the client reads as "HTTP/1.1 400 Bad Request" with Connection: close; any other code gets its default page, which (for a one-line reason) the client reads with the code and reason in the status line, the page as the body, its exact Content-Length, and Connection: close |
| Routing.DefaultPageReads | src/ServerManager.cpp:736-764 | the text of a default error page reads as the code's status line and the page, with Content-Type text/html, its exact length and Connection: close |
| Routing.FixedRepliesRead | src/ServerManager.cpp:366-370 | the hand-written 400 and 413 replies read as their status line and heading, with Connection: close in the head |
| Routing.FixedReplyReads | src/ServerManager.cpp:751-755 | any reply written as status line, Content-Type, Connection: close, blank line and heading reads as that status line and heading |
| Routing.ErrorResponseConfiguredPage | src/ServerManager.cpp:724-731 | a readable configured page is served from under www/ with the error's code; an unreadable one raises 403, which escapes |
| Routing.PrepareParseError | src/ServerManager.cpp:668-670 | a request the parser rejects is answered as that error: with no page configured the client gets what ErrorResponseCases describes, and without a server the default 500 page |
| Routing.PrepareRedirect | src/ServerManager.cpp:678-684 | every redirection raised while routing reaches the client as an empty 301 naming the target |
| Routing.PrepareNotAllowed | src/ServerManager.cpp:685-695 | a refused method gets the default 405 page with the allowed methods, after the body is drained |
| Reader.FreshRequest | src/ServerManager.cpp:5-8 | a new request is empty and consistent: no content length, not chunked, no headers parsed |
| Reader.AppendToBuffer | src/ServerManager.cpp:10-13 | the chunk goes at the end and the count grows by its length; nothing else changes |
| Reader.StrtolOfIntToString | src/ServerManager.cpp:236 | `strtol` reads every number in the range of `long` back from its decimal rendering |
| Reader.StrtolSaturates | src/ServerManager.cpp:236 | a run of digits too large for `long` reads as LONG_MAX, and after a '-' as LONG_MIN |
| Reader.DeclaredLength | src/ServerManager.cpp:236-237 | the content length is never below -1, is -1 exactly for a negative value, and is the value read otherwise |
| Reader.DeclaredLengthOfDecimal | src/ServerManager.cpp:236 | a decimal number is read back as itself |
| Reader.DeclaredLengthOfText | src/ServerManager.cpp:236-237 | a value that does not start with a sign or a digit declares length 0 rather than "absent" |
| Reader.FoldLinesNoLength | src/ServerManager.cpp:223-238 | without a Content-Length line the content length is left as it was |
| Reader.FoldLinesLastLength | src/ServerManager.cpp:229-237 | the last Content-Length line decides the content length |
| Reader.FoldLinesLengthBound | src/ServerManager.cpp:236-237 | a content length of at least -1 stays at least -1 |
| Reader.FoldLinesLength | src/ServerManager.cpp:223-238 | the last Content-Length line decides the content length; without one it is left as it was; it never drops below -1 |
| Reader.FoldLinesChunked | src/ServerManager.cpp:239-245 | the request counts as chunked exactly when it already did or some line is a Transfer-Encoding containing "chunked"; the flag is never cleared |
| Reader.LinesRebuildBlock | src/ServerManager.cpp:224-249 | the lines the loop visits are exactly the CRLF-separated pieces of the header block |
| Reader.LinesHaveNoBreak | src/ServerManager.cpp:226-228 | no visited line contains a CRLF |
| Reader.RequestLineSplit | src/ServerManager.cpp:214-220 | with two spaces the method is the text before the first and the path the text between them, neither containing a space |
| Reader.RequestLineUnsplit | src/ServerManager.cpp:217 | with fewer than two spaces the request line changes nothing |
| Reader.ParseHeadersWaits | src/ServerManager.cpp:205-206 | without the blank line only the header end changes and the answer is false; a true answer needs the blank line and a known server |
| Reader.ParseHeadersDone | src/ServerManager.cpp:205-263 | once the blank line has arrived and the server is known, the headers are parsed and the body starts after the blank line |
| Reader.ParseHeadersLength | src/ServerManager.cpp:223-238 | the content length is -1 without a Content-Length line, and otherwise what the last one declares |
| Reader.ParseHeadersChunked | src/ServerManager.cpp:239-245 | the chunked flag is set exactly when it already was or a header line asks for chunked |
| Reader.ParseHeadersLimit | src/ServerManager.cpp:256-261 | the body limit is the best location's, else the server's |
| Reader.ParseHeadersRequestLine | src/ServerManager.cpp:210-220 | the request line is the text before the first CRLF, and it sets method and path when it has two spaces |
| Reader.ParseHeadersLines | src/ServerManager.cpp:224-249 | the header block after the request line is the visited lines joined by CRLF, none containing a CRLF |
| Reader.ParseHeadersKeepsBuffer | src/ServerManager.cpp:203-273 | parsing changes neither the buffer nor its count, and a false answer leaves the parsed flag alone |
| Reader.ReadRequestLine | src/ServerManager.cpp:214-220 | the request-line block sets method and path from the first two spaces, or leaves the request unchanged |
| Reader.ReadHeaderLine | src/ServerManager.cpp:229-247 | the body of the header loop for one line updates the content length and the chunked flag |
| Reader.ReadHeaderFields | src/ServerManager.cpp:205-249 | once the blank line and the first CRLF are found, sets header_end, body_start, the request line's method and path, the content length and the chunked flag |
| Reader.ReadHeaderLines | src/ServerManager.cpp:224-249 | the header loop folds every visited line |
| Reader.ApplyLimit | src/ServerManager.cpp:256-263 | the limit step sets the limit and marks the headers parsed |
| Reader.ParseRequestHeaders | src/ServerManager.cpp:203-273 | the method computes `parse_headers`' answer and the updated request |
| Reader.AfterChunkSpec | src/ServerManager.cpp:283-344 | one chunk is appended; a pending request is incomplete and within its limit; a 413 exceeds the declared or received limit; a ready request is complete and within both |
| Reader.AfterChunkAppends | src/ServerManager.cpp:284 | whatever the verdict, the chunk is at the end of the buffer and the count has grown by its length |
| Reader.ReceiveChunk | src/ServerManager.cpp:284-344 | the body of the receive loop for one chunk |
| Reader.ReadLoop | src/ServerManager.cpp:283-345 | a pass consumes no more results than the stream holds |
| Reader.RecvLoop | src/ServerManager.cpp:283-345 | the loop consumes results until one ends the pass |
| Reader.ReadLoopBuffer | src/ServerManager.cpp:283-284 | a pass appends exactly the bytes of the data it consumed, in order |
| Reader.ReadLoopKeepsConsistent | src/ServerManager.cpp:10-13 | a pass keeps the byte count equal to the buffer's length |
| Reader.ReadLoopStops | src/ServerManager.cpp:283-345 | a pass stops with 413 only over a limit, as complete only on a complete request, and otherwise at a result that is not data |
| Reader.HasFinalChunk | src/ServerManager.cpp:404-413 | true exactly when "\r\n0\r\n" occurs or the buffer ends with "0\r\n" |
| Reader.FinalChunkSurvivesAppend | src/ServerManager.cpp:406 | a terminating chunk after a CRLF stays detected however much data follows |
| Reader.FinalChunkOfChunkedBody | src/ServerManager.cpp:404-413 | a whole chunked body is detected |
| Reader.EmptyChunkedBodyNotSeen | src/ServerManager.cpp:405-411 | "0\r\n\r\n" on its own is not detected, because the start of the buffer is never checked although the comment says it is |
| Reader.DrainCountSpec | src/ServerManager.cpp:425-445 | the content-length branch succeeds exactly when the data that follows carries at least the missing bytes |
| Reader.DrainChunksSpec | src/ServerManager.cpp:448-468 | the chunked branch succeeds exactly when some prefix of the data that follows completes the body |
| Reader.DrainBodySpec | src/ServerManager.cpp:417-471 | the drain succeeds at once for a chunked body already complete or for no body, and otherwise as the two branches say |
| Reader.DrainByCount | src/ServerManager.cpp:429-443 | the content-length loop computes the branch's result |
| Reader.DrainByChunks | src/ServerManager.cpp:449-467 | the chunked loop computes the branch's result |
| Reader.DrainRequestBody | src/ServerManager.cpp:417-471 | computes the drain's result |
| Reader.EraseFirst | src/ServerManager.cpp:496-499 | the first occurrence of the pattern is removed, or nothing changes when there is none |
| Reader.Emptied | src/ServerManager.cpp:494-495 | a drained request is empty and consistent, with no headers, no length and no chunking, and keeps its limit, path and method |
| Reader.DrainAndAdjustSpec | src/ServerManager.cpp:479-501 | only a successful drain changes the request, which is emptied, or the response, which loses its first "Connection: close" |
| Reader.TryDrainAndAdjust | src/ServerManager.cpp:479-501 | the method computes the drain and the adjustment |
| Manager.CleanupForgets | src/ServerManager.cpp:770-779 | the client leaves both sets and every map; other descriptors are untouched and the bookkeeping stays valid |
| Manager.NewConnectionRejected | src/ServerManager.cpp:127-137 | a failed `accept`, or a descriptor at or above FD_SETSIZE, changes nothing |
| Manager.NewConnectionRegisters | src/ServerManager.cpp:139-146 | an accepted descriptor becomes a reading client of its listening socket with a fresh request; nothing else changes and `_max_fd` covers it |
| Manager.ShouldCloseConnection | src/ServerManager.cpp:189-201 | as written: true exactly when the request or the response is a substring of "Connection: close" |
| Manager.ShouldCloseOnlyShortTexts | src/ServerManager.cpp:192-198 | a request and a response longer than 17 characters never close the connection |
| Manager.ShouldCloseEmptyRequest | src/ServerManager.cpp:192 | an empty request buffer always closes |
| Manager.FixedRepliesKeepConnection | src/ServerManager.cpp:366-378 | the fixed 400 and 413 replies contain "Connection: close" yet keep open the connection of any request longer than 17 characters |
| Manager.SetOffsetKeepsValid | src/ServerManager.cpp:175 | moving a client's offset inside its response keeps the bookkeeping valid and changes nothing else |
| Manager.KeepAliveKeepsValid | src/ServerManager.cpp:180-185 | keeping the connection returns the client to the state of a fresh connection |
| Manager.WriteReadsClient | src/ServerManager.cpp:152-177 | in a valid state `operator[]` finds the client's own response, offset and request |
| Manager.WriteNothingCloses | src/ServerManager.cpp:170-174 | a send of nothing removes the client |
| Manager.WriteAdvances | src/ServerManager.cpp:175-176 | a partial send advances the offset by its count and keeps the client writing |
| Manager.WriteStepsBy | src/ServerManager.cpp:175-187 | the state after a send of n bytes, without wrap-around |
| Manager.WriteFinishesClosing | src/ServerManager.cpp:176-178 | a send that finishes the response of a closing client removes it |
| Manager.WriteFinishesKeeping | src/ServerManager.cpp:179-186 | a send that finishes the response of a kept client puts it back to reading as if freshly connected |
| Manager.SendErrorAtStartEndsServer | src/ServerManager.cpp:168-175 | `send` returning -1 at the start is not seen as a failure: the offset becomes 2^64 - 1, and the next write raises `out_of_range` |
| Manager.SendErrorLaterStepsBack | src/ServerManager.cpp:168-175 | with the offset inside the response, -1 only steps it back by one |
| Manager.WriteStepsBack | src/ServerManager.cpp:168-175 | the state after a send of -1 with the offset inside the response: the offset minus one, and nothing else |
| Manager.RespondKeepsValid | src/ServerManager.cpp:338-341 | answering stores the request and the response, sets the offset to 0 and moves the client to the write set |
| Manager.AnswerKeepsValid | src/ServerManager.cpp:338-341 | storing a prepared answer keeps the bookkeeping valid; only an exit or an escaped exception halts the process |
| Manager.StoppedKeepsValid | src/ServerManager.cpp:346-384 | after the loop stops: an error removes the client, EAGAIN keeps it reading, and a close answers it |
| Manager.ReadKeepsValid | src/ServerManager.cpp:275-385 | a read keeps the bookkeeping valid and other clients untouched; it removes the client exactly on an error and keeps it reading exactly on EAGAIN, with every byte appended, and otherwise switches it to writing |
| Manager.ClosedEarlyGetsBadRequest | src/ServerManager.cpp:352-383 | a peer that closes before the request is complete gets the fixed 400 reply |
| Manager.OwnerShared | src/ServerManager.cpp:32-41 | listeners on the same endpoint share the same first owner |
| Manager.SetupFdShared | src/ServerManager.cpp:27-47 | with distinct new sockets, two listeners share a descriptor exactly when they bind the same host and port |
| Manager.ServersAfterLastWins | src/ServerManager.cpp:47 | every listener's descriptor is a server, and the last listener on an endpoint is the one stored |
| Manager.ServersAfterKeys | src/ServerManager.cpp:27-58 | only the listeners' descriptors are added to the servers map |
| Manager.ServerManager.constructor | src/ServerManager.cpp:15-18 | the manager starts with empty maps and sets, `_max_fd` 0, and a valid state |
| Manager.ServerManager.Setup | src/ServerManager.cpp:22-59 | each listener gets the descriptor of the first earlier one on its endpoint, else its own socket, and the servers map is updated |
| Manager.ServerManager.CleanupClient | src/ServerManager.cpp:770-779 | the state becomes the cleaned-up state |
| Manager.ServerManager.HandleNewConnection | src/ServerManager.cpp:126-148 | the state after `accept`'s result |
| Manager.ServerManager.HandleWrite | src/ServerManager.cpp:150-188 | the state after `send`'s result, and whether the write escapes |
| Manager.ServerManager.QueueResponse | src/ServerManager.cpp:338-341 | stores the request and the response, sets the offset to 0 and moves the client to the write set |
| Manager.ServerManager.AnswerRequest | src/ServerManager.cpp:338-341 | stores `prepare_response`'s answer, draining the body first for a 405 |
| Manager.ServerManager.FinishRead | src/ServerManager.cpp:346-384 | what the handler does once the receive loop has stopped |
| Manager.ServerManager.HandleRead | src/ServerManager.cpp:275-385 | the state after reading the client's receive stream, and what is left of that stream |

## Left out

- The `select` loop in `init`, `_init_server_unit` (`listen`), `_handle_signal` and `main` are not modelled. They are driver code around the handlers; each handler is modelled on its own.
- `accept`, `recv` and `send` are not called. Their results become parameters:
  - `recv` is a sequence of results, and an exhausted sequence reads as EAGAIN;
  - `send` is the count it returned.
- Closing sockets and `set_nonblocking` are not modelled.
- `setUpIndividualServer` (`socket`, `setsockopt`, `bind`) is a parameter: the sequence of descriptors it would open. Manager.ServerManager.Setup therefore cannot fail: a failing `socket`, `setsockopt` or `bind` throws `ErrorException`, which ends `main`, and the model has no such path.
- `Cgi::executeCgi` and `Cgi::run` are not modelled: there is no `fork`, pipes or `execve`. The script's output is an input of the response builder. saveFile.py and the other scripts are not part of this model.
- Response.GetOutcome, Response.PostOutcome and Response.DeleteOutcome: the CGI run cannot fail in the model. A failing `pipe` or `fork` throws `runtime_error`, which `prepare_response` ends with `exit(1)`; a failing `execve` raises 500 in the forked child; neither is modelled. Response.DeleteOutcome also does not run deleteFile.py for a DELETE with a query: it only gives the empty 200 reply.
- File reading, `opendir`/`readdir`, `stat` and `access` are an environment value: file contents, listings, file kinds and executables.
- The `Request` parser and `statusCodeString` are not in the core. They are parameters: a function from request text to `Request`, and a reason function.
- `Location` and its getters, `HttpException` and the configuration reader are not part of this model. `Location` is a record of what its getters return.
- The directive keywords and `MAX_CONTENT_LENGTH` come from headers that are not part of this model:
  - the keywords are taken as the nginx names (`root`, `methods`, `allow_methods`, `autoindex`, `index`, `return`, `alias`, `cgi`, `client_max_body_size`);
  - the default body size is a constructor parameter;
  - FD_SETSIZE is taken as 1024 and the status codes as the standard numbers.
- `setServerName`, `setHost` and `isValidHost` (`inet_pton`, `inet_addr`), `setRoot` (`getcwd`, `exit`), `isValidErrorPages`, `getLocationKey`, the copy constructor and the assignment operator are not modelled. They are configuration plumbing outside the request path.
- `compare_langs`, `read_file_binary`, `read_file_text`, `set_nonblocking` and logging are not modelled.
- `_request_complete` is not modelled: nothing calls it.
- Utils.Strip: requires the stripped character not to be NUL. The C++ scan for the leading run reads the terminating NUL of an emptied string.
- Utils.ReplaceAll: requires a non-empty pattern. With an empty one the C++ loop never ends; the server always passes a fixed, non-empty pattern.
- Utils.FtAtoi: does not model `int` overflow, which is undefined behaviour in C++; the model returns the mathematical value.
- Manager.WriteAdvances, Manager.WriteStepsBy, Manager.SendErrorLaterStepsBack and Manager.SendErrorAtStartEndsServer: require the response to be shorter than 2^64 bytes, which every `std::string` is.
- Manager.ReadKeepsValid: a `Data` result with no bytes stands for `recv` returning 0 (the peer closed).
- `_get_client_server_fd` is modelled as a lookup: a client whose server descriptor is not in the servers map counts as having no server.
- `HttpResponse` keeps the `Request*` it was built from; the model passes the request to each handler instead.
- A `Cgi` object without a script path cannot be built, so `run`'s own empty-path check is not modelled.
- Paths.CleanPathDecodes: holds only for paths that do not themselves contain "%20". Such a path decodes to a space where the client meant the text.
