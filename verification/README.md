# Verified model of the Xash3D master server, its wire protocol and its observer

The repository holds a game master server (`crates/xash3d-master`), the library for its wire protocol
(`crates/xash3d-protocol`), and a client side that watches and queries game servers
(`crates/xash3d-observer`, `crates/xash3d-query`). This project models the four cores on which the others
depend and proves what they promise, with Dafny 4.11:

- **The registry.** Packets arrive one at a time and drive challenges, registrations, per-IP quotas, rate
  limits, admin commands and bans, all kept in maps whose old entries are deleted lazily. Every clock reading
  of a handler is an explicit input; a run is any sequence of packets with readings that never go back.
  `Registry.dfy` says what each packet does to the state, `MasterServer.dfy` is the object that does it in
  place over `TimedHashMap.dfy`, and `Registry*.dfy`, `TimedMapRefinement.dfy` and `Tickets.dfy` hold the
  results over whole runs, in terms of what servers, clients and admins send.
- **The codec.** Cursors over buffers, `\key\value` maps, the server filter, the registration packet, the
  A2S_INFO reply of Valve's "Server queries" document, the engine's own info and players replies, the query
  for a server list, the paginated answer and the Steam broker's frames. Each has a definition of its bytes,
  methods that move a cursor over a buffer and are proved against it, and a round trip with its domain;
  `*Fields.dfy` say what each key means in any input that is accepted.
- **The observer.** The event loop with its pending stack, three periodic tasks and delayed events
  (`Observer.dfy`, `ObserverLoop.dfy`; results in `ObserverSafety.dfy`, `ObserverHistory.dfy` and
  `ObserverEvents.dfy`), the state of one connection (`Connection.dfy`), and the query that joins info and players
  on top of it (`QueryJoin.dfy`, `QueryServersInfo.dfy`; results in `QueryEvents.dfy`).
- **Two scanners**, for escaping bytes and for dropping colour codes: run-based loops that agree with a
  one-pass definition.

`dafny verify dfyconfig.toml` checks the whole project.

Where a property that one would expect is false, the model keeps the code as it is and the exact condition is
proved: a list sent without a key can be misread (`ServerList.PageReadsBackIff`), raising a timeout revives
old entries (`TimedMapRefinement.TimeoutChangeIsSafeIffNotRaised`), the clock wraps
(`Clock.ElapsedExactIffNoWrap`), a limit of `u32::MAX` never rejects
(`RegistryRateLimit.LimiterRejectsIffLimitIsProper`), stripping colours twice drops more where a caret rejoins
a digit, as in `^^11` (`Color.StripIsStableIffNothingRejoins`), info and players commute unless players came
before any info (`ServerResults.OrderMattersIff`), and the newest players are not always the ones that are
shown (`ServerResults.NewestPlayersAreShownIff`).

The code and its comments disagree in two places, and the model follows the code: a tick of `RelativeTime`
is 8 ms and not 125 ms, because the conversions use `UNITS_PER_SEC`
(`crates/xash3d-master/src/time.rs:12-22`); and the filter flags `empty` and `full` are the flags of empty
and full servers, as the tests have it, not of their opposites as the table in the module comment says
(`crates/xash3d-protocol/src/filter.rs:14-27`).

## Model

| member | source | states |
|---|---|---|
| Clock.ElapsedExactIffNoWrap | crates/xash3d-master/src/time.rs:16-35 | The measured time between two readings is right exactly when no wrap of the u32 tick counter (every 2^35 ms) lies between them. |
| Clock.WrapRevivesExpiredEntries | crates/xash3d-master/src/hash_map.rs:27-29 | A concrete entry that expired long ago reads as fresh right after the wrap. |
| PeriodicAction.CountFirings | crates/xash3d-master/src/periodic.rs:28-47 | The u16 counter never overflows, and n calls fire exactly once per max(1, limit): calls made are the firings times the period plus what the counter holds. |
| TimedHashMaps.TimedHashMap.Insert | crates/xash3d-master/src/hash_map.rs:98-103 | The in-place insert, with its periodic sweep, is the insert of the map's value. |
| TimedHashMaps.TimedHashMap.Entry | crates/xash3d-master/src/hash_map.rs:119-132 | Opening an entry finds it occupied exactly when the key is live, and leaves the map the refinement is about. |
| TimedHashMaps.TimedHashMap.Remove | crates/xash3d-master/src/hash_map.rs:105-117 | Removes the key whatever its age and reports it only if it was live. |
| TimedHashMaps.TimedHashMap.Retain | crates/xash3d-master/src/hash_map.rs:166-185 | Keeps exactly the live entries the caller wants and restarts the sweep counter, unless the map is empty. |
| TimedMapRefinement.LazyDeletionIsUnobservable | crates/xash3d-master/src/hash_map.rs:91-185 | For any sequence of calls with one timeout and a clock that never goes back, callers see exactly what an ideal map that never deletes expired entries would show. |
| TimedMapRefinement.StepRefines | crates/xash3d-master/src/hash_map.rs:91-185 | One call shows the same on both maps and keeps the stored one between the live part and the whole of the ideal one. |
| TimedMapRefinement.TimeoutChangeIsSafeIffNotRaised | crates/xash3d-master/src/hash_map.rs:79-81 | Whatever is called before and after it, a change of the timeout shows callers what the ideal map shows exactly when the timeout is not raised. |
| TimedMapRefinement.RaisedTimeoutIsObservable | crates/xash3d-master/src/hash_map.rs:79-81 | Storing an entry, finding it outdated just when it expires, raising the timeout and looking again gives nothing where the ideal map has the entry. |
| TimedMapRefinement.GarbageIsBounded | crates/xash3d-master/src/hash_map.rs:91-132 | At any point of any run at most 100 more entries are stored than the last sweep left behind. |
| RegistrySafety.ReachableStatesAreSafe | crates/xash3d-master/src/master_server.rs:281-320 | In every reachable state no stored server has a banned IP, and from the last clock reading on each IP has at most max_servers_per_ip live servers. |
| RegistrySafety.AddServerExactly | crates/xash3d-master/src/master_server.rs:682-697 | With four clock readings during which entries may expire: a live server is refreshed, any other is added exactly when its IP has fewer live servers than the quota, and no other server is affected. |
| RegistrySafety.CountDoesNotTruncate | crates/xash3d-master/src/master_server.rs:674-676 | The cast of the count to u16 loses nothing in a state within the quota. |
| RegistryAnswers.AnswersAreSafe | crates/xash3d-master/src/master_server.rs:443-492 | Whatever is listed to a client in any run is the fake server or an answer without banned IPs that lists no IP more often than the quota. |
| RegistryQueries.ListedIsAnswer | crates/xash3d-master/src/master_server.rs:405-492 | Only a decoded query from an address that is not banned is ever answered, to its sender and with its own key: from the stored servers if the client tells a version not below the minimum and a build number not below the limit for its engine, with the fake server if not. |
| RegistryQueries.QueryActions | crates/xash3d-master/src/master_server.rs:443-492 | Everything that a packet with a query makes: nothing if it is not let in, otherwise one list and, for a client that is served and does not exclude servers behind NAT, one announcement. |
| RegistryQueries.AskedIff | crates/xash3d-master/src/master_server.rs:462-472 | A stored server is selected exactly when the details it registered with have the region, the gamedir, map and protocol where given, each flag of the mask as requested, and protocol 48 for clients before 0.20. |
| RegistryAnswers.QueriesAreAnswered | crates/xash3d-master/src/master_server.rs:443-492 | Main result: over any run, every query that is let in gets exactly one list, with its own key. A client that is served gets exactly those servers whose last admissible registration in the run has the details that it asks for and is neither outlived nor banned; every other client gets exactly the fake server. |
| RegistryAnswers.ClientsAreAnnounced | crates/xash3d-master/src/master_server.rs:474-489 | A client is announced exactly when it is served and its filter does not exclude NAT, and then to exactly those of these servers that registered as being behind NAT. |
| RegistryAnswers.AnswersReachClients | crates/xash3d-master/src/master_server.rs:425-492 | What a client reads out of the packets of its answer is exactly the servers that should be listed to it, each once, if it sent a key or no server looks like one. |
| RegistryAnswers.StoredIsKnown | crates/xash3d-master/src/master_server.rs:345-367 | Every stored server is known by one registration of the run: that was admissible, gave the entry its details and its stamp, and nothing has replaced it or banned its IP since. |
| RegistryAnswers.KnownIsStored | crates/xash3d-master/src/master_server.rs:345-367 | The other way round: a server whose admissible registration has not outlived the timeout is stored, over any run, until a ban or a new registration. |
| RegistryAnswers.NewServerIsListed | crates/xash3d-master/src/master_server.rs:331-492 | The shortest such run: a server asks for a challenge and returns it with acceptable details, a client that is served asks for such a server, and the run lists the server to it. |
| RegistryAnswers.StoredStays | crates/xash3d-master/src/master_server.rs:682-697 | No other packet of any run takes a live server out of the map. |
| RegistryAdmin.CommandOutcome | crates/xash3d-master/src/master_server.rs:547-591 | With the right challenge and the hash of a configured password and the salt a command is executed; with any other hash it leaves servers and block list alone and is held against the sender; without the challenge nothing happens at all. |
| RegistryAdmin.CommandRunsIff | crates/xash3d-master/src/master_server.rs:547-591 | A command is executed exactly when its sender is not banned or limited, returns the number stored for it in time, and sends the hash of some password with the stored salt. |
| RegistryAdmin.AdminsAreObeyed | crates/xash3d-master/src/master_server.rs:529-591 | Over any run: an IP that is not banned and has sent no wrong hash for the admin timeout gets its command executed if it returns the numbers last issued to it in time. |
| RegistryAdmin.OnlyAdminsAreObeyed | crates/xash3d-master/src/master_server.rs:529-591 | And whatever is executed was sent by such an IP with the hash of a password. |
| RegistryAdmin.BlocklistAfter | crates/xash3d-master/src/master_server.rs:732-771 | An executed ban puts every named IP on the block list, an executed unban takes every one off, and no other packet changes the list. |
| RegistryAdmin.BannedServersGo | crates/xash3d-master/src/master_server.rs:732-764 | An executed ban removes all servers of the named IPs and no live server besides. |
| RegistryAdmin.BannedIff | crates/xash3d-master/src/master_server.rs:732-771 | Over any run an IP is on the block list exactly when an executed command banned it and none has unbanned it since. |
| RegistryAdmin.BannedAreIgnored | crates/xash3d-master/src/master_server.rs:298-300 | Whatever a banned IP sends changes nothing and is not answered. |
| RegistryAdmin.LimitedIff | crates/xash3d-master/src/master_server.rs:529-591 | Over any run an IP is limited exactly while its last wrong hash for a right challenge is less than the admin timeout old. |
| RegistryAdmin.LimitedAreIgnored | crates/xash3d-master/src/master_server.rs:529-535 | While it is, its admin packets change nothing and are not answered. |
| RegistrySafety.UnbanAllShrinks | crates/xash3d-master/src/master_server.rs:732-771 | An unban command takes exactly the named IPs off the block list. |
| RegistryChallenges.RegistrationsSpendChallenges | crates/xash3d-master/src/master_server.rs:331-367 | Over any run each registration spends its own issuance, made to the same address with the same number less than the challenge timeout earlier; asking again tells the number already out and does not prolong it. |
| RegistryChallenges.RegistersIff | crates/xash3d-master/src/master_server.rs:345-367 | A packet registers its sender exactly when it is let in, has a version not below the minimum, and returns the number stored for the sender before it outlives its timeout. |
| RegistryChallenges.ReturningServersRegister | crates/xash3d-master/src/master_server.rs:331-367 | Over any run, a server that returns the last number issued to it, with an acceptable version and in time, is registered. |
| RegistryChallenges.ChallengeIsTold | crates/xash3d-master/src/master_server.rs:331-343 | Every request for a challenge that is let in is answered: with the number that is out for the sender, or with a new one that is issued to it. |
| RegistryChallenges.CommandsSpendChallenges | crates/xash3d-master/src/master_server.rs:537-591 | Over any run each executed admin command spends its own admin challenge, issued to the same IP with the same two numbers within the timeout. |
| Tickets.SpentOnce | crates/xash3d-master/src/master_server.rs:647-668 | No issuance of a challenge authorises two uses. |
| RegistryChallenges.StoredServersAreRegistered | crates/xash3d-master/src/master_server.rs:345-367 | Every stored server comes from a registration of that address with those details. |
| RegistryAnswers.ListedServersAnsweredTheirChallenge | crates/xash3d-master/src/master_server.rs:443-492 | Every address listed to a client that is served returned in time a number that had been issued to it, and registered with details that the query asks for. |
| RegistryRateLimit.AcceptedRequestsAreBounded | crates/xash3d-master/src/master_server.rs:374-383 | Over any run and any interval of D ticks, one IP gets at most limit * (D/125 + 2) game requests accepted. |
| RegistryRateLimit.QuietClientsAreServed | crates/xash3d-master/src/master_server.rs:374-383 | An IP that has sent fewer requests than the limit in the last 125 ticks gets its next one accepted, whatever it sent before and whatever other IPs send. |
| RegistryRateLimit.LimiterRejectsIffLimitIsProper | crates/xash3d-master/src/master_server.rs:374-383 | Some run ends in a rejection exactly when the limit is neither 0 nor u32::MAX, where the counter saturates; one request more than the limit within one tick is such a run. |
| RegistryUpdates.UpdateNamesGamedir | crates/xash3d-master/src/master_server.rs:494-526 | Over any run, a client that asks for the details of the fake server is told the game directory of its last query that was not served, if that was text of at most 31 bytes, less than five seconds ago and not told yet; otherwise `valve`. |
| MasterServers.MasterServer.HandleServerAdd | crates/xash3d-master/src/master_server.rs:345-367 | The in-place handler does to the six maps and the block list what the run that the results are about does. |
| MasterServers.MasterServer.HandleAdminCommand | crates/xash3d-master/src/master_server.rs:547-591 | The same for admin commands: rate limit, challenge, hash, execution or penalty. |
| MasterServers.MasterServer.HandleQuery | crates/xash3d-master/src/master_server.rs:443-492 | The in-place handler selects the servers of the answer, announces the client to those behind NAT unless the filter excludes them, and returns packets that carry the answer; an invalid query gets the fake server. |
| MasterServers.MasterServer.HandlePacket | crates/xash3d-master/src/master_server.rs:597-645 | Every packet does to the object what the step of the specification does, and whatever it lists is what the returned packets carry. |
| MasterServers.MasterServer.RunLoop | crates/xash3d-master/src/master_server.rs:281-320 | Handling packets one by one on the object is the run of the specification, answers and announcements included. |
| Types.Filter.MatchesFlagByFlag | crates/xash3d-protocol/src/filter.rs:203-220 | A server matches exactly when each flag the mask names has the requested value and gamedir, map and protocol agree where given; a filter that requests a flag outside its mask matches nothing. |
| FilterFields.ParsedNumbers | crates/xash3d-protocol/src/filter.rs:227-269 | In any accepted filter the build number is the decimal and the key the hexadecimal number of the last pair with that key, and missing without one. |
| FilterFields.ParsedVersion | crates/xash3d-protocol/src/filter.rs:227-269 | The same for the client version and the protocol. |
| FilterFields.ParsedNames | crates/xash3d-protocol/src/filter.rs:227-269 | The same for gamedir and map; ParsedPlatform and ParsedBuild say it of os, arch, branch and commit. |
| FilterFields.ParsedPlayers | crates/xash3d-protocol/src/filter.rs:197-269 | A flag is in the mask exactly when its key is given, and requested exactly when its last value is 1; ParsedSecurity and ParsedNetwork say it of the other flags. |
| Escape.FormatBytes | crates/xash3d-protocol/src/wrappers.rs:69-104 | The loop that copies runs of printable bytes computes the byte-by-byte escape. |
| Escape.UnescapeInvertsEscape | crates/xash3d-protocol/src/wrappers.rs:69-104 | Escaping can be undone, so nothing is lost. |
| Escape.EscapeIsInjective | crates/xash3d-protocol/src/wrappers.rs:69-104 | Different bytes never print as the same text. |
| Escape.UnchangedIffPrintable | crates/xash3d-protocol/src/wrappers.rs:73-104 | Text is printed as itself exactly when it is printable and free of backslashes. |
| Escape.EscapedIsClean | crates/xash3d-protocol/src/wrappers.rs:73-104 | Escaped text is printable, and backslash-free exactly when nothing had to be escaped. |
| Escape.EscapesAsDocumented | crates/xash3d-protocol/src/wrappers.rs:73-104 | Newline, tab and backslash have their own escapes; any other unprintable byte becomes its two lower-case hexadecimal digits. |
| Color.TrimColor | crates/xash3d-protocol/src/color.rs:133-145 | Both the shortcut and the iterator drop exactly the codes that one pass from the left drops. |
| Color.ColorIter.Next | crates/xash3d-protocol/src/color.rs:108-121 | Each step makes progress, yields the last of the codes in front and the text that the pass keeps; the rest is two characters per dropped code. |
| Color.LengthIsAccountedFor | crates/xash3d-protocol/src/color.rs:54-79 | Length in equals length out plus two per dropped code. |
| Color.StripByCharacter | crates/xash3d-protocol/src/color.rs:54-79 | A caret goes together with a digit from 0 to 9 behind it, and every other character is kept. |
| Color.StripIsStableIffNothingRejoins | crates/xash3d-protocol/src/color.rs:133-145 | A second pass changes nothing exactly when no caret of the text is separated by codes from a digit that follows them. |
| Color.CodesAppearIffRejoined | crates/xash3d-protocol/src/color.rs:133-145 | The stripped text holds a code exactly when the text has such a caret. |
| MapIters.AcceptedMapIsLossless | crates/xash3d-protocol/src/map.rs:281-339 | The pairs of any accepted map serialise back to it, up to one trailing backslash, and hold no backslash or NUL. |
| MapIters.MapIsAcceptedIff | crates/xash3d-protocol/src/map.rs:281-339 | A slice is a map exactly when it is empty, or starts with a backslash, holds no NUL, and has an odd number of backslashes, or one at the end, behind that. |
| MapRecords.DecodeFails | crates/xash3d-protocol/src/net/server.rs:166-185 | A decode fails with the first pair whose value is rejected, whatever is behind it, or else because the map is malformed. |
| MapIters.SerializeRoundTrip | crates/xash3d-protocol/src/map.rs:281-339 | Iterating over serialised pairs yields exactly those pairs. |
| MapIters.MapIter.Next | crates/xash3d-protocol/src/map.rs:315-339 | One step of the iterator over its moving slice; an error leaves it where it is. |
| Numerals.ParseInvertsPrint | crates/xash3d-protocol/src/map.rs:124-129 | A number printed in decimal or hexadecimal parses back within its width. |
| Numerals.ParseIff | crates/xash3d-protocol/src/map.rs:124-129 | Exactly what parses as a number: digits of the radix in either case, behind at most one plus sign, whose value fits. |
| Utf8.IsUtf8Iff | crates/xash3d-protocol/src/map.rs:124-129 | Text is well-formed exactly when it is the encoding of Unicode scalar values. |
| VersionText.ParseInvertsPrintVersion | crates/xash3d-protocol/src/filter.rs:122-149 | A version with or without a patch parses back. |
| VersionText.ParsePatch | crates/xash3d-protocol/src/filter.rs:138-149 | A version is its numbers between dots; ParseMinor and ParseMajor say that those left out are 0. |
| FilterText.ParseInvertsPrintFilter | crates/xash3d-protocol/src/filter.rs:323-375 | A filter with plain text fields and flags within its mask survives printing and parsing. |
| FilterText.PrintParseIffPlainAndMasked | crates/xash3d-protocol/src/filter.rs:227-375 | That is exactly the domain of the round trip. |
| FilterText.ParsedFlagsAreMasked | crates/xash3d-protocol/src/filter.rs:197-269 | Whatever is parsed, the flags lie within the mask. |
| FilterText.ParsePrintParse | crates/xash3d-protocol/src/filter.rs:253-375 | Parsing, printing and parsing again gives what the first parse gave, for plain text. |
| FilterText.FromMapIter | crates/xash3d-protocol/src/filter.rs:253-269 | The decoding loop over the iterator computes the decoding function, errors included. |
| Cursors.FromLeInvertsToLe | crates/xash3d-protocol/src/cursor/write.rs:201-217 | Little-endian bytes read back as the number, in every width that holds it. |
| Cursors.LittleEndian | crates/xash3d-protocol/src/cursor/write.rs:201-217 | The bytes of a number in widths 2 and 4, the least significant first. |
| Cursors.ReadCstrOf | crates/xash3d-protocol/src/cursor/read.rs:123-133 | A NUL-terminated string reads back with everything behind it left unread. |
| Cursors.CursorMut.PutBytes | crates/xash3d-protocol/src/cursor/write.rs:165-174 | Bytes are appended at the position or, when they do not fit, nothing is written; nothing in front of the position changes. |
| Cursors.CursorMut.Split | crates/xash3d-protocol/src/cursor/write.rs:152-162 | Splitting gives two cursors over adjacent parts of the same buffer. |
| ServerInfo2.DecodeInvertsEncode | crates/xash3d-protocol/src/net/server.rs:518-667 | For every combination of extras and every u64 app id, what the A2S_INFO format can carry survives. |
| ServerInfo2.RoundTripIffEncodable | crates/xash3d-protocol/src/net/server.rs:518-667 | The round trip holds exactly for NUL-free strings and players + bots <= 255. |
| ServerInfo2.DecodedIsEncodable | crates/xash3d-protocol/src/net/server.rs:518-599 | Every decoded reply is of that kind, whatever the bytes. |
| ServerInfo2.FixedFieldsAreRead | crates/xash3d-protocol/src/net/server.rs:518-599 | Whatever the fixed fields hold, the reply decodes to them: bots are taken off the clients, more bots than clients are an error, every byte but 0 means yes. |
| ServerInfo2.TrailerIsExact | crates/xash3d-protocol/src/net/server.rs:549-577 | Bytes behind the announced extras are an error. |
| ServerInfo2.DecodePacket | crates/xash3d-protocol/src/net/server.rs:518-599 | The decoder with its moving cursor computes the decoding function, errors included. |
| ServerInfo2Encoder.EncodePacket | crates/xash3d-protocol/src/net/server.rs:602-667 | The encoder with its reserved flag byte succeeds exactly when the buffer holds the fixed part, one more byte and the extras, and then has written the packet. |
| ServerAddText.RoundTripIffEncodable | crates/xash3d-protocol/src/net/server.rs:107-215 | A registration survives exactly when its texts hold no backslash, NUL or newline and it is flagged as having bots exactly when it has some. |
| ServerAddText.DecodedIsEncodable | crates/xash3d-protocol/src/net/server.rs:140-191 | Every decoded registration is of that kind, whatever the bytes. |
| ServerAddText.NewlineIsOptional | crates/xash3d-protocol/src/net/server.rs:144-158 | With or without the final newline a packet decodes to the same result, errors included. |
| ServerAddText.AcceptedIff | crates/xash3d-protocol/src/net/server.rs:112-191 | A packet is accepted exactly when its body is a list of pairs, every known key has an acceptable value, and one key is the challenge. |
| ServerAddFields.DecodedTexts | crates/xash3d-protocol/src/net/server.rs:112-138 | In any accepted registration, in whatever order its pairs come, gamedir and map are the last values of their keys, or empty. |
| ServerAddFields.DecodedNumbers | crates/xash3d-protocol/src/net/server.rs:112-138 | Protocol, players and max are the last numbers of their keys, or 0. |
| ServerAddFields.DecodedChallenge | crates/xash3d-protocol/src/net/server.rs:112-138 | The challenge is the last number of its key. |
| ServerAddFields.DecodedBots | crates/xash3d-protocol/src/net/server.rs:112-138 | So is the number of bots, which also sets the flag. |
| ServerAddFields.DecodedKinds | crates/xash3d-protocol/src/net/server.rs:112-138 | Type and system are the letters d, l, p and l, w, m; anything else means unknown. |
| ServerAddFields.DecodedVersion | crates/xash3d-protocol/src/net/server.rs:112-138 | A version that does not parse counts as 0.0.0; a missing region is the rest of the world. |
| ServerAddFields.DecodedSecurity | crates/xash3d-protocol/src/net/server.rs:107-138 | The flags password and secure are set exactly when the last value of their key is 1; DecodedNetwork says it of lan and nat. |
| ServerAddFields.RejectedForFirst | crates/xash3d-protocol/src/net/server.rs:166-191 | The first value that is not acceptable is reported with its key, whatever is behind it; without one the malformed map, or the missing challenge. |
| ServerAddFields.BrokenPackets | crates/xash3d-protocol/src/net/server.rs:144-164 | A NUL in front of the newline, bytes behind the newline, and a missing leading backslash each have their own error. |
| ServerAddText.DecodePacket | crates/xash3d-protocol/src/net/server.rs:140-191 | The decoding loop computes the decoding function, errors included. |
| ServerAddEncoder.EncodePacket | crates/xash3d-protocol/src/net/server.rs:194-215 | The encoder succeeds exactly when the packet fits, and then the buffer starts with it. |
| ServerInfoText.RoundTripIffEncodable | crates/xash3d-protocol/src/net/server.rs:304-415 | A server's info survives exactly when gamedir, map and host hold no backslash and no NUL. |
| ServerInfoText.DecodedIsEncodable | crates/xash3d-protocol/src/net/server.rs:342-395 | Every decoded info is of that kind, whatever the bytes. |
| ServerInfoText.NulIsOptional | crates/xash3d-protocol/src/net/server.rs:360-377 | With or without the trailing NUL an info decodes to the same result, errors included. |
| ServerInfoText.FindMessage | crates/xash3d-protocol/src/net/server.rs:346-358 | Looking from the end finds what is behind the last colon of a message. |
| ServerInfoText.MessageIsRejection | crates/xash3d-protocol/src/net/server.rs:346-358 | A reply that does not start with a backslash rejects the protocol version exactly when it ends with `: wrong version` and a newline; every other such reply is an invalid packet. |
| ServerInfoText.RejectedIff | crates/xash3d-protocol/src/net/server.rs:342-395 | Nothing else is read as a rejection of the protocol version. |
| ServerInfoFields.DecodedTexts | crates/xash3d-protocol/src/net/server.rs:304-340 | In any accepted reply gamedir, map and host are the last values of their keys, or empty; DecodedNumbers, DecodedModes and DecodedAccess say it of the other fields. |
| ServerInfoText.DecodePacket | crates/xash3d-protocol/src/net/server.rs:342-395 | The decoding loop computes the decoding function, errors included. |
| PlayersText.DecodeInvertsEncode | crates/xash3d-protocol/src/net/server.rs:868-924 | A list of up to 255 players with NUL-free names reads back as it was, negative frags included. |
| PlayersText.CollectPlayers | crates/xash3d-protocol/src/net/server.rs:882-892 | The iterator makes as many attempts as the packet claims players, each where the last one stopped, errors included. |
| PlayersText.NamedPlayer | crates/xash3d-protocol/src/net/server.rs:882-892 | A player behind its name is eight more bytes; with fewer of them, the error says how many are missing and what was read stays consumed. |
| PlayersText.EveryAttemptIsMade | crates/xash3d-protocol/src/net/server.rs:882-892 | There are as many attempts as the packet claims players, even behind one that broke off. |
| PlayersText.EncodePacket | crates/xash3d-protocol/src/net/server.rs:899-924 | The encoder with its reserved count byte succeeds exactly when the packet fits, and then the buffer starts with it. |
| QueryText.RoundTripIff | crates/xash3d-protocol/src/net/game.rs:42-83 | A query for servers survives exactly when its last address is plain text and its filter survives printing. |
| QueryText.NulIsOptional | crates/xash3d-protocol/src/net/game.rs:50-59 | With or without the trailing NUL a query decodes to the same result, errors included. |
| QueryText.BrokenQueries | crates/xash3d-protocol/src/net/game.rs:42-67 | A byte that is no region, a last address without NUL and bytes behind the trailing NUL each have their own error. |
| QueryText.DecodePacket | crates/xash3d-protocol/src/net/game.rs:42-67 | The decoder with its moving cursor computes the decoding function, errors included. |
| QueryText.EncodePacket | crates/xash3d-protocol/src/net/game.rs:70-83 | The encoder succeeds exactly when the packet fits, and then the buffer starts with it. |
| ServerList.IterateInvertsList | crates/xash3d-protocol/src/net/master.rs:184-190 | The iterator yields exactly the listed addresses, even those with port 0, and stops at the end marker. |
| ServerList.Collect | crates/xash3d-protocol/src/net/master.rs:184-190 | Driving the iterator to its end yields the addresses of the iteration function. |
| ServerList.Encode | crates/xash3d-protocol/src/net/master.rs:202-229 | Each packet takes min(remaining, (capacity - header) / size - 1) addresses; encoding fails exactly when the end marker does not fit. |
| ServerList.SendServerList | crates/xash3d-master/src/master_server.rs:699-716 | The sending loop ends and sends the packets of the pages, in order. |
| ServerList.PagesAreExact | crates/xash3d-master/src/master_server.rs:699-716 | The pages concatenate to the list; all but the last are full. |
| ServerList.PageReadsBackIff | crates/xash3d-protocol/src/net/master.rs:142-156 | A packet reads back as its page and key exactly when it has a key or does not start with an address that looks like one. |
| ServerList.MisreadPageLosesOne | crates/xash3d-protocol/src/net/master.rs:148-156 | Otherwise, for IPv4, a key is invented and exactly the first address is lost. |
| ServerList.MisreadPageShiftsAll | crates/xash3d-protocol/src/net/master.rs:148-156 | For IPv6 no address is lost, but each one is made of the end of one record and the start of the next. |
| ServerList.MisreadExample | crates/xash3d-protocol/src/net/master.rs:148-156 | The list that holds only 127.0.0.1:27144 arrives empty. |
| ServerList.SentListReadsBackIff | crates/xash3d-master/src/master_server.rs:699-716 | What is sent reads back as the whole list with the same key, page by page, under exactly that condition. |
| ServerList.NoProgressForever | crates/xash3d-master/src/master_server.rs:707-714 | With a buffer that holds the end marker, a step takes no address exactly when the list is empty or the buffer has no room for one. |
| Broker.DecodeStreamInverts | crates/xash3d-protocol/src/net/broker.rs:108-135 | Concatenated frames decode back one by one to the same payloads. |
| Broker.PrefixNeedsMore | crates/xash3d-protocol/src/net/broker.rs:108-119 | Every strict prefix of a frame asks for exactly what is missing from its header, then from its payload. |
| Broker.TwoRequestsSuffice | crates/xash3d-protocol/src/net/broker.rs:108-119 | A reader that asks for what it is told to completes the frame after at most two requests and never reads past it. |
| Broker.DecodeFrame | crates/xash3d-protocol/src/net/broker.rs:108-119 | The decoder with its moving cursor computes the decoding function, errors included. |
| Broker.EncodeFrame | crates/xash3d-protocol/src/net/broker.rs:121-135 | Writes header and payload, or fails for want of room or because the length does not fit a u16. |
| Connections.RunMatchesHistory | crates/xash3d-observer/src/connection.rs:100-213 | After any run a connection is what its history says: protocol, phase, challenge, info, times, and whether players are owed. |
| Connections.NoticesMatchHistory | crates/xash3d-observer/src/connection.rs:146-213 | So is what the user is told: whether info is news, players only when owed, a protocol error only when the fallback is used up or the server was detected before. |
| Connections.RequestsMatchHistory | crates/xash3d-observer/src/connection.rs:100-213 | And so is everything that is sent: an info request with version 48 once the server rejected 49, with a players request that carries the last challenge or, without one, a request for a challenge; the players request again for each new challenge while players are owed; nothing otherwise. |
| Connections.ValidWhileHeard | crates/xash3d-observer/src/connection.rs:73-75 | A connection is valid exactly until the server has been silent for 16 seconds. |
| Connections.LegacyIsFinal | crates/xash3d-observer/src/connection.rs:196-208 | The fallback to the legacy protocol is never undone. |
| Connections.Connection.HandlePacket | crates/xash3d-observer/src/connection.rs:146-213 | The in-place handler does what the function that the history result is about does. |
| ObserverSafety.EveryRunIsGood | crates/xash3d-observer/src/observer.rs:187-448 | Over any calls of the user and any network behaviour: at the head of every iteration pending entries are distinct and known, masters are distinct and no delayed event is left; each iteration asks exactly whom it should, once each; when packets are read every master remembers the key it was last asked with. An event that is a list comes from a packet with that key; the first such list becomes the event, and one with another key or none is as if it had never been received. |
| ObserverSafety.QueriesSpec | crates/xash3d-observer/src/observer.rs:364-411 | Tasks and the pending phase of one iteration together ask each pending or due master and server exactly once. |
| ObserverSafety.ProcessTasksDelays | crates/xash3d-observer/src/observer.rs:238-262 | One pass queues at most one event for an address: removals for exactly the connections it drops, timeouts for exactly the servers asked again while owing a reply. |
| ObserverSafety.TaskIsPaced | crates/xash3d-observer/src/observer.rs:116-136 | A task fires at most once per interval, and after a check it is not due at the same time. |
| ObserverSafety.WaitShrinks | crates/xash3d-observer/src/observer.rs:297-324 | Waiting never makes a connection, server events are about connections there were, and players come only to those who wished for them. |
| ObserverHistory.ServersAreConnections | crates/xash3d-observer/src/observer.rs:297-324 | In every run each connection is what some history of requests and replies since its insertion makes of it, and what the user is told about a server is what one of its packets means after such a history. |
| ObserverHistory.IterationFollows | crates/xash3d-observer/src/observer.rs:364-448 | In one iteration a connection goes through exactly the requests, at the clock readings of its places, and the packets of its server up to the first event. |
| ObserverHistory.DroppedIff | crates/xash3d-observer/src/observer.rs:297-395 | An iteration drops a server exactly when a due cleanup finds it silent for 16 seconds or the user is told that it rejects both protocol versions. |
| ObserverHistory.KeysAreDrawn | crates/xash3d-observer/src/observer.rs:35-59 | Every query to a master carries a key that was drawn for it in the same iteration. |
| ObserverHistory.TaskIsDueIff | crates/xash3d-observer/src/observer.rs:125-136 | A task is due exactly when its time has come; its next time is one interval later, or one interval from now if that has passed as well. |
| ObserverHistory.IntervalsAreFixed | crates/xash3d-observer/src/observer.rs:20-23 | The intervals stay 8, 2 and 16 seconds over any run. |
| ObserverEvents.LoopUnfolds | crates/xash3d-observer/src/observer.rs:413-448 | A wait is a chain of iterations in front of its deadline, of which only the last may have made an event, the one that is returned. |
| ObserverEvents.TimesOutIff | crates/xash3d-observer/src/observer.rs:420-436 | A wait times out exactly when its deadline passes before anything happens. |
| ObserverEvents.DelayedEventsAreConserved | crates/xash3d-observer/src/observer.rs:386-448 | Over any run every timeout and removal that was queued is told to the user once or still waits to be. |
| ObserverEvents.InsertedServer | crates/xash3d-observer/src/observer.rs:208-213 | A new server gets a connection and is pending; a known one keeps its connection. InsertedMaster says the same of masters. |
| ObserverEvents.RemovedMaster | crates/xash3d-observer/src/observer.rs:200-206 | Nothing but the master and its pending entry goes, whatever takes its place in the list. RemovedServer says the same of servers. |
| ObserverLoop.Observer.ProcessTasks | crates/xash3d-observer/src/observer.rs:397-411 | The in-place task phase does what the specification does. |
| ObserverLoop.Observer.ProcessPending | crates/xash3d-observer/src/observer.rs:364-384 | The loop that empties the pending stack does what the specification does. |
| ObserverLoop.Observer.WaitEvent | crates/xash3d-observer/src/observer.rs:413-448 | The event loop on the object is the loop that the results are about. |
| ServerResults.JoinedResult | crates/xash3d-query/src/server_result.rs:101-131 | Any series of responses comes to the last info with its ping, joined with the last players in front of the first info or else the first players behind it, whose bots it counts. |
| ServerResults.NewestPlayersAreShownIff | crates/xash3d-query/src/server_result.rs:101-131 | The newest players are the ones shown exactly when they came in front of any info or are the only ones that ever came. |
| ServerResults.OrderMattersIff | crates/xash3d-query/src/server_result.rs:101-131 | For the results that occur, the order of one info and one players response matters exactly when players but no info came before. |
| ServerResults.OrderExample | crates/xash3d-query/src/server_result.rs:101-131 | Two lists of players and an info: the newer list is shown if it comes before the info, the older one if not. |
| ServerResults.OrderDoesNotMatterIff | crates/xash3d-query/src/server_result.rs:101-131 | Exactly when one info and one players response may arrive in either order; from a timeout they may. |
| ServerResults.FirstPlayersStay | crates/xash3d-query/src/server_result.rs:101-131 | A complete answer keeps its players whatever arrives later. |
| ServerResults.Cell.PutOk | crates/xash3d-query/src/server_result.rs:119-131 | The in-place update does what the join results are about. |
| QueryJoin.QueryIsSound | crates/xash3d-query/src/query_servers_info.rs:260-343 | On top of the observer, over any network behaviour: the expected result is always there; the servers still waited for are exactly the named ones that never had a complete answer or an error, so an early end means that all had one; shown players come with their own count of bots. |
| QueryEvents.ResultsFollowEvents | crates/xash3d-query/src/query_servers_info.rs:260-343 | The result shown for a server is what the series of its responses comes to, in the order of the events, since its last error; until the first one it is a timeout. |
| QueryEvents.ListedServersAreAsked | crates/xash3d-query/src/query_servers_info.rs:313-321 | A list gives every server of it a result and a pending connection with the wish for players, leaves the other results alone, and switches the time limit the first time. |
| QueryEvents.WaitsUntilTheLimit | crates/xash3d-query/src/query_servers_info.rs:301-343 | Subtracting what has elapsed makes every wait last until the same point in time, the start plus the limit in force. |
| QueryRunner.QueryServersInfo.Run | crates/xash3d-query/src/query_servers_info.rs:301-343 | The loop on the object is the run that this result is about. |

## Left out

- Sockets, DNS, signals, threads, logging and statistics: packets, clock readings and what is sent are inputs and outputs; sends succeed.
- The BLAKE2b hash is an arbitrary function of password and salt, and generated numbers are arbitrary inputs.
- Hash tables are maps and sets; where the order of iteration shows (the observer's tables) it is an input, and otherwise sets say that it does not matter.
- Configuration reload but for its timeouts (`MasterServer.UpdateTimeouts`, `TimeoutChangeIsSafeIffNotRaised`), command line, TOML, terminal and JSON output, the admin client and benchmarks. The results over runs are for one configuration.
- The u32 tick counter is unbounded in the registry's results, so they hold while the uptime is below 2^35 ms; `ElapsedExactIffNoWrap` is why.
- Text in values is bytes with a check for UTF-8 where numbers and versions are parsed; conversion to characters is not modelled. Colour codes work on characters, since all code characters are ASCII.
- Flags are sets of the defined bits; undefined bits of a flags word are not represented.
- Socket address text (client announcements, the broker's connect and disconnect commands) and the splitting of broker commands into arguments: standard library behaviour, and `try_next` yields an empty token on trailing blanks.
- GetServerInfo2ResponseOld and the packets of fixed layout: easier instances of the codecs proved here.
- ServerInfoText: the encoder is a definition of the packet's bytes only; `ServerAddEncoder` shows the same chain of `put_key` calls over a buffer.
- The registry receives packets decoded, the codecs are modelled beside it; the dispatch on packet headers is not part of the model.
- The observer receives packets decoded, as one of the replies it tells apart; a player's time is four raw bytes and not a float.
- `handle_server_remove` removes nothing in the code, and so in the model; the removal of a server is left to its timeout or a ban.
- The observer's table holds connections as values, so its loop and the class `Connection` share the functions `Query` and `Handle` instead of objects; a query sends one or two packets there and counts as one.
- Observer tasks are values updated by `UpdateTime`, and each clock reading is an argument instead of a call.
- MasterServers.MasterServer.SelectServers: gives the servers of an answer in an arbitrary order, because the order comes from the hash table; `Carries` says that the packets are those of some such order.
- The packets that announce a client to servers behind NAT and the packet of the fake server's details are logged with what they say and not as bytes; `ServerInfoText` has the bytes of the latter.
- ServerList.SendServerList: requires a list or buffer for which the loop of the source ends; the buffers of 512 and 1280 bytes do (`RealBuffers`).
- Player data other than names and the count of bots, and the sorting and printing of results.
