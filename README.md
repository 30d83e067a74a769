# DoCitten, modelled in Dafny

DoCitten is an IRC bot. It is built from independent services, and each one
watches the messages of a channel or of a private conversation and may reply:

- the link service finds links in messages and answers with the page title;
  for other content it gives the MIME type and the size. It follows at most
  five redirects, and an older nested resolver follows any number of them;
- the context service keeps the last ten lines of each channel in ring
  buffers and replays them on request;
- the hush service silences the bot per channel or per user;
- the reminder service keeps per-user notes in a comparator-ordered set and
  lists or removes them by index;
- the help service keeps a keyword tree of help topics and walks down it;
- the MOTD service parses a `key=value` notice file and announces notices
  newer than the last one sent;
- the dice service rolls dice in SUM, PRODUCT or BASE mode;
- the social network service follows searches on social networks and relays
  new posts;
- the bundled JSON object has typed getters and a serialiser.

One Dafny module models each of these files. A few shared modules support
them:

- `Strings` holds Java string, `Integer.parseInt`, `String.compareTo` and
  32-bit `int` arithmetic, with a character standing for one code point
  rather than one UTF-16 unit (see "Left out");
- `Tokens` holds the tokeniser of the chat library, whose behaviour is
  assumed;
- `Ordered` holds `TreeSet<String>` and `TreeMap<String, V>`, modelled as
  strictly sorted sequences;
- `Irc` holds the message records.

Objects whose fields the code updates are classes with `modifies` frames:

- `ArrayBuffer`, over an array;
- the context, hush, reminder, help, MOTD and social services;
- `HelpInfo` and the social stream task;
- `JSONObject`.

Loops in the code are methods with loop invariants, each proved against a
specification function. The network, the clock and `Random` are
parameters:

- an HTTP oracle gives the answer to a HEAD request, the headers and body
  of a GET, the URL a Location header resolves to (or that `URI.resolve`
  or `toURL` throws), the host of a URI, and whether `URI.create` accepts
  a text as a URI at all;
- an interruption flag is given per iteration;
- the random draws are given for each die.

## Model

| member | source | states |
|---|---|---|
| Buffers.Shift | src/uk/co/harcourtprogramming/docitten/utility/ArrayBuffer.java:48-54 | one add drops the oldest element and appends the new one as the newest, keeping the length |
| Buffers.AddAllWindow | src/uk/co/harcourtprogramming/docitten/utility/ArrayBuffer.java:48-54 | after any sequence of adds the buffer holds the most recent `length` values of its initial contents followed by everything added |
| Buffers.FreshBufferAdds | src/uk/co/harcourtprogramming/docitten/utility/ArrayBuffer.java:34-54 | after n <= length adds to a fresh buffer, the oldest length - n slots still hold the initial value and the rest hold the added values in order |
| Buffers.ArrayBuffer.constructor | src/uk/co/harcourtprogramming/docitten/utility/ArrayBuffer.java:34-41 | a fresh backing array of the given length, every slot holding the initial value, oldest slot 0 |
| Buffers.ArrayBuffer.ContentsAt | src/uk/co/harcourtprogramming/docitten/utility/ArrayBuffer.java:63-69 | offset i of the oldest-first contents is backing slot (pos + i) mod length |
| Buffers.ArrayBuffer.Add | src/uk/co/harcourtprogramming/docitten/utility/ArrayBuffer.java:48-54 | returns the oldest element, overwrites exactly its slot with the value, advances pos modulo the length; contents shift by one |
| Buffers.ArrayBuffer.Get | src/uk/co/harcourtprogramming/docitten/utility/ArrayBuffer.java:63-69 | the element offset places after the oldest for 0 <= offset < length, the exception (None) otherwise |
| Buffers.ArrayBuffer.GetLength | src/uk/co/harcourtprogramming/docitten/utility/ArrayBuffer.java:75-78 | the fixed length, which is the number of stored elements |
| Context.Blank | src/uk/co/harcourtprogramming/docitten/ContextService.java:68 | a new channel buffer holds ten empty lines |
| Context.StartBuffer | src/uk/co/harcourtprogramming/docitten/ContextService.java:68-69 | a fresh ten-slot buffer of empty lines after one add holds nine empty lines and the new line |
| Context.LinesCount | src/uk/co/harcourtprogramming/docitten/ContextService.java:84-90 | lines without newlines of their own give a reply of exactly one line per slot |
| Context.RecordedAllIsAddAll | src/uk/co/harcourtprogramming/docitten/ContextService.java:61-76 | recording several lines in a channel is adding them all to its buffer (a blank one for a new channel) |
| Context.ContextOfNewChannel | src/uk/co/harcourtprogramming/docitten/ContextService.java:61-90 | after n <= 10 lines in a channel with no history, its context is 10 - n empty lines and then those n lines, oldest first, each ending in a newline |
| Context.ContextService.constructor | src/uk/co/harcourtprogramming/docitten/ContextService.java:32-46 | no channel has a history |
| Context.ContextService.Record | src/uk/co/harcourtprogramming/docitten/ContextService.java:61-76 | the line is added to the channel's buffer, creating a blank one first; every other channel's history is unchanged |
| Context.ContextService.RecordNew | src/uk/co/harcourtprogramming/docitten/ContextService.java:66-71 | a channel without a buffer gets a fresh one holding the line after nine empty lines |
| Context.ContextService.RecordExisting | src/uk/co/harcourtprogramming/docitten/ContextService.java:72-75 | the channel's own buffer shifts in the line; no other channel's buffer changes |
| Context.ContextService.Replay | src/uk/co/harcourtprogramming/docitten/ContextService.java:84-90 | every slot of the buffer, oldest first, each followed by a newline |
| Context.ContextService.ContextOf | src/uk/co/harcourtprogramming/docitten/ContextService.java:80-96 | the replay of the channel's history, or "No context available for this channel." |
| Context.ContextReply | src/uk/co/harcourtprogramming/docitten/ContextService.java:80-96 | a channel with no history gets "No context available for this channel."; otherwise the reply starts with the oldest line and a newline |
| Context.IsContextRequest | src/uk/co/harcourtprogramming/docitten/ContextService.java:58-59 | a context request is exactly a message that starts "<nick>: context" |
| Context.ContextService.Handle | src/uk/co/harcourtprogramming/docitten/ContextService.java:49-98 | private messages are ignored; a context request is answered and not recorded; any other channel message is recorded and not answered |
| Context.ContextService.Filter | src/uk/co/harcourtprogramming/docitten/ContextService.java:101-123 | outbound lines to a '#' or '&' target are recorded under the bot's nick; the message passes through unchanged |
| Help.JoinedAppend | src/uk/co/harcourtprogramming/docitten/HelpService.java:127-131 | the listing of two runs of lines is the listing of the first followed by that of the second |
| Help.SubTopicsStep | src/uk/co/harcourtprogramming/docitten/HelpService.java:127-131 | each loop pass appends exactly one "  <keyword>: <title>" line, for the next child in key order |
| Help.Render | src/uk/co/harcourtprogramming/docitten/HelpService.java:115-135 | the text starts with title, a blank line and the content; without children it then ends in one newline, otherwise it continues with a blank line, "Sub-Topics" and one line per child |
| Help.AddedChildListed | src/uk/co/harcourtprogramming/docitten/HelpService.java:93-96 | after put the keyword is listed with the new child, and put returns the child the keyword had before |
| Help.HelpInfo.constructor | src/uk/co/harcourtprogramming/docitten/HelpService.java:74-78 | a node with the given title and content and no children |
| Help.HelpInfo.AddChild | src/uk/co/harcourtprogramming/docitten/HelpService.java:93-96 | the keyword now leads to the item, every other keyword keeps its child, keys stay sorted, and the replaced child (if any) is returned |
| Help.HelpInfo.ToString | src/uk/co/harcourtprogramming/docitten/HelpService.java:115-135 | the node's text as Render describes it, built by the loop over children in key order |
| Help.HelpInfo.Text | src/uk/co/harcourtprogramming/docitten/HelpService.java:115-135 | toString starts with the title, a blank line and the content; a node without children ends there with one newline |
| Help.BlankLineAfterTitle | src/uk/co/harcourtprogramming/docitten/HelpService.java:119-120 | the blank line between the title and the content is in every help text |
| Help.UnaddressedIgnored | src/uk/co/harcourtprogramming/docitten/HelpService.java:251-252 | a channel message that does not start "<nick>:" gets no help reply |
| Help.UnknownFirstTopic | src/uk/co/harcourtprogramming/docitten/HelpService.java:259-275 | a path whose first keyword is not a sub-topic is answered "Unknown sub-topic: '<keyword>'" whatever follows |
| Help.AnswerAppend | src/uk/co/harcourtprogramming/docitten/HelpService.java:257-278 | walking a path is walking its first keyword and then the rest from the node reached |
| Help.Answer | src/uk/co/harcourtprogramming/docitten/HelpService.java:257-278 | the answer is "Unknown sub-topic" for one of the keywords asked, or a help text, which holds a blank line |
| Help.HelpService.constructor | src/uk/co/harcourtprogramming/docitten/HelpService.java:191-196 | the default root "Help" with exactly the sub-topics "about" and "help", in that order, with their titles |
| Help.HelpService.AddTwo | src/uk/co/harcourtprogramming/docitten/HelpService.java:194-195 | two children added to an empty node are kept in ascending keyword order |
| Help.HelpService.WithRoot | src/uk/co/harcourtprogramming/docitten/HelpService.java:204-210 | a null root is refused (IllegalArgumentException); any other root is used as given |
| Help.HelpService.Custom | src/uk/co/harcourtprogramming/docitten/HelpService.java:204-210 | the service uses the root it is given |
| Help.HelpService.AddHelp | src/uk/co/harcourtprogramming/docitten/HelpService.java:224-228 | root.addChild: the key now leads to the info, other keys unchanged, the replaced child returned |
| Help.HelpService.Handle | src/uk/co/harcourtprogramming/docitten/HelpService.java:244-279 | no reply unless addressed and starting "help"; otherwise the answer of walking the topic tokens from the root |
| Help.TwoChildren | src/uk/co/harcourtprogramming/docitten/HelpService.java:93-96 | TreeMap order: two puts on an empty node list the smaller keyword first |
| Help.AboutBeforeHelp | src/uk/co/harcourtprogramming/docitten/HelpService.java:194-195 | "about" sorts before "help", so the default listing shows it first |
| Hush.Addressed | src/uk/co/harcourtprogramming/docitten/HushService.java:37-41 | consuming the nick and the colon never lengthens the text |
| Hush.RemoveTarget | src/uk/co/harcourtprogramming/docitten/HushService.java:67-72 | Set.remove keeps every element except the one removed; removing null removes nothing |
| Hush.RequestOf | src/uk/co/harcourtprogramming/docitten/HushService.java:35-74 | a hush names the channel in a channel and the sender in a private message; a speak names the message's channel (null in a private message) |
| Hush.HushAfter | src/uk/co/harcourtprogramming/docitten/HushService.java:30-75 | handling a message at most adds or removes its own target (the channel, or the sender in private) |
| Hush.HushIdempotent | src/uk/co/harcourtprogramming/docitten/HushService.java:30-75 | handling the same message twice leaves the same hushed set as handling it once |
| Hush.HushChangesOnlyItsTarget | src/uk/co/harcourtprogramming/docitten/HushService.java:30-75 | no target other than the message's channel or sender changes state |
| Hush.UnaddressedIgnored | src/uk/co/harcourtprogramming/docitten/HushService.java:37-38 | a channel message that does not start with the nick changes nothing |
| Hush.AddressedCommand | src/uk/co/harcourtprogramming/docitten/HushService.java:37-43 | for "<nick>: <word>" the text matched is exactly the word |
| Hush.SpeakIsNotHush | src/uk/co/harcourtprogramming/docitten/HushService.java:43-56 | "speak!*" and "hush!*" never both match |
| Hush.ChannelHush | src/uk/co/harcourtprogramming/docitten/HushService.java:43-48 | "<nick>: hush" with any number of '!' hushes the channel |
| Hush.ChannelSpeak | src/uk/co/harcourtprogramming/docitten/HushService.java:50-55 | "<nick>: speak" with any number of '!' un-hushes the channel |
| Hush.PrivateHush | src/uk/co/harcourtprogramming/docitten/HushService.java:60-66 | "hush" with any number of '!' in a private message hushes the sender |
| Hush.OtherCommandIgnored | src/uk/co/harcourtprogramming/docitten/HushService.java:43-74 | a message whose command is neither hush nor speak changes nothing |
| Hush.ChannelOtherWord | src/uk/co/harcourtprogramming/docitten/HushService.java:43-56 | "<nick>: <word>" in a channel, for any other word, changes nothing |
| Hush.PrivateSpeakKeepsSender | src/uk/co/harcourtprogramming/docitten/HushService.java:67-72 | a private "speak" removes the null channel, so the hushed set is unchanged |
| Hush.HushService.constructor | src/uk/co/harcourtprogramming/docitten/HushService.java:13-15 | no target is hushed |
| Hush.HushService.Handle | src/uk/co/harcourtprogramming/docitten/HushService.java:30-75 | the hushed set becomes the specification HushAfter of the old set and the message |
| Hush.HushService.Filter | src/uk/co/harcourtprogramming/docitten/HushService.java:78-86 | null exactly for a hushed target; otherwise the same message |
| Links.WordEnd | src/uk/co/harcourtprogramming/docitten/LinkService.java:45-46 | [^\s]+ runs greedily to the next whitespace character or the end |
| Links.ProtocolAt | src/uk/co/harcourtprogramming/docitten/LinkService.java:45-46 | the protocol a match can start with is "https://" or "http://" in any case |
| Links.MatchAt | src/uk/co/harcourtprogramming/docitten/LinkService.java:45-46 | a match at i is a whole protocol link and ends at whitespace or at the end of the text |
| Links.LinksFrom | src/uk/co/harcourtprogramming/docitten/LinkService.java:336-338 | every successive find() of protocolPattern is a protocol link |
| Links.CiPrefixSlice | src/uk/co/harcourtprogramming/docitten/LinkService.java:45-46 | the case-insensitive protocol test on a slice agrees with the test on the whole text |
| Links.NoSpaceInProtocol | src/uk/co/harcourtprogramming/docitten/LinkService.java:45-46 | the protocol part of a match has no whitespace |
| Links.ProtocolAtSlice | src/uk/co/harcourtprogramming/docitten/LinkService.java:45-46 | a match read on its own slice starts with the same protocol |
| Links.InsertAll | src/uk/co/harcourtprogramming/docitten/LinkService.java:330-338 | TreeSet.add of each element keeps the set sorted and holds exactly the old elements and the added ones |
| Links.InsertAllCons | src/uk/co/harcourtprogramming/docitten/LinkService.java:333-338 | adding a first element and then the rest is adding them all |
| Links.UrisSpec | src/uk/co/harcourtprogramming/docitten/LinkService.java:327-341 | the links are sorted and are exactly the uriPattern matches and the protocolPattern matches |
| Links.Uris | src/uk/co/harcourtprogramming/docitten/LinkService.java:327-341 | the two find() loops into one TreeSet give exactly the specified sorted set of links |
| Links.InsertMatches | src/uk/co/harcourtprogramming/docitten/LinkService.java:332-334 | the uriPattern loop leaves exactly the sorted set of its matches |
| Links.InsertProtocolLinks | src/uk/co/harcourtprogramming/docitten/LinkService.java:336-338 | the protocolPattern loop adds exactly the links of the message to the set |
| Links.CiPrefixShorter | src/uk/co/harcourtprogramming/docitten/LinkService.java:45-46 | where "https://" occurs, ignoring case, so does "http" |
| Links.NoHttpNoLinks | src/uk/co/harcourtprogramming/docitten/LinkService.java:336-338 | text in which "http" never occurs, in any case, holds no protocol link |
| Links.LinkAfterText | src/uk/co/harcourtprogramming/docitten/LinkService.java:336-338 | a link preceded only by text without an 'h' is found whole, and is the only match |
| Links.NoMatchInText | src/uk/co/harcourtprogramming/docitten/LinkService.java:336-338 | no match starts inside text without an 'h' |
| Links.LinkAtEnd | src/uk/co/harcourtprogramming/docitten/LinkService.java:336-338 | a link that ends the text is found whole |
| Links.NoLetterH | src/uk/co/harcourtprogramming/docitten/LinkService.java:336-338 | text without the letter h holds no protocol link |
| Links.InsertAllTwo | src/uk/co/harcourtprogramming/docitten/LinkService.java:330-334 | two links found in descending order are stored in ascending order |
| Links.UrisTwoDomains | test/uk/co/harcourtprogramming/docitten/LinkServiceTest.java:60 | "google.com or bing.com" gives the set {bing.com, google.com} |
| Links.NoLinksInDomains | test/uk/co/harcourtprogramming/docitten/LinkServiceTest.java:60 | that message has no protocol link |
| Links.BingBeforeGoogle | test/uk/co/harcourtprogramming/docitten/LinkServiceTest.java:60 | "bing.com" sorts before "google.com" |
| Links.UrisNone | test/uk/co/harcourtprogramming/docitten/LinkServiceTest.java:51-53 | "bob" and "hello com" give no links |
| Links.BracketedLink | test/uk/co/harcourtprogramming/docitten/LinkServiceTest.java:63 | for "[https://github.com]" protocolPattern finds the link with the closing bracket, and that string is in the set |
| Links.BracketKept | src/uk/co/harcourtprogramming/docitten/LinkService.java:45-46 | a protocol link followed by ']' is still a protocol link |
| Links.FoundLinksUnprefixed | src/uk/co/harcourtprogramming/docitten/LinkService.java:138-147 | every link protocolPattern found is resolved as it is, without "http://" prefixed |
| Links.LegacyFollow | src/uk/co/harcourtprogramming/docitten/LinkService.java:164-224 | the nested redirect loop, each probe one HEAD request: a reached URL is the last one probed and answers a success status; running out of fuel means every request allowed was sent. A Location that does not resolve ends the walk in Crash (stated by LegacyUnresolvableLocationCrashes) |
| Links.LegacyNormalise | src/uk/co/harcourtprogramming/docitten/LinkService.java:138-145 | a link that protocolPattern does not match whole gets "http://" prefixed; the link is kept at the end |
| Links.LegacyResolution | src/uk/co/harcourtprogramming/docitten/LinkService.java:138-258 | a link whose normalised form URI.create refuses gives Refused with no HEAD request, for any bound; for an accepted link, with no requests allowed nothing is known, and a finished run sent between 1 and fuel HEAD requests, the first to the normalised link |
| Links.LegacyRunFrom | src/uk/co/harcourtprogramming/docitten/LinkService.java:164-258 | from an accepted base URI: with no requests allowed nothing is known; a finished run sent between 1 and fuel HEAD requests, the first to the start |
| Links.LegacyResolveLink | src/uk/co/harcourtprogramming/docitten/LinkService.java:138-258 | the constructor and then the nested run(): a refused link gives Refused with no request; otherwise the outcome and the probed URLs of the nested resolution when it ends within the bound, and the requests of the unfinished walk when it does not |
| Links.LegacyRun | src/uk/co/harcourtprogramming/docitten/LinkService.java:156-258 | the nested run() loop from an accepted base URI: its outcome and HEAD requests are those of LegacyRunFrom, including Crash right after a Location that does not resolve, and an unfinished run has sent the requests of LegacyFollow |
| Links.LegacyNeverGivesUp | src/uk/co/harcourtprogramming/docitten/LinkService.java:164-224 | against endless redirects whose every Location resolves, the nested loop never stops: it uses up any bound on HEAD requests |
| Links.LegacyExceedsHopLimit | src/uk/co/harcourtprogramming/docitten/LinkService.java:164-224 | against endless redirects whose every Location resolves, the nested resolver, given a link URI.create accepts, sends more than MAX_HOPS HEAD requests |
| Links.LegacyUnresolvableLocationCrashes | src/uk/co/harcourtprogramming/docitten/LinkService.java:210-215 | a run that ends at a redirect whose Location URI.resolve or toURL rejects ends in Crash, rethrown by the catch at lines 252-255 |
| Links.LegacyStop | src/uk/co/harcourtprogramming/docitten/LinkService.java:171-223 | a HEAD answer that does not lead on to a resolvable Location ends the walk: Crash for a failed request or an unresolvable Location, the URL reached for a success status, Quiet otherwise |
| Links.LegacyRedirectStep | src/uk/co/harcourtprogramming/docitten/LinkService.java:209-215 | following a resolvable redirect moves its URL from the rest of the walk to the walk so far |
| Links.Started | src/uk/co/harcourtprogramming/docitten/LinkService.java:310-320 | the links handle() starts are never more than the links found |
| Links.StartedIsAcceptedPrefix | src/uk/co/harcourtprogramming/docitten/LinkService.java:310-320 | the started links are a prefix of the sorted links, every one accepted by the constructor, and the first link not started is one the constructor refuses |
| Links.StartAll | src/uk/co/harcourtprogramming/docitten/LinkService.java:313-319 | the loop of handle(): it starts the accepted prefix of the links and throws exactly when it stops short of the end |
| Links.Handle | src/uk/co/harcourtprogramming/docitten/LinkService.java:310-320 | handle(): over the specified set of links, the started threads are the accepted prefix, and it throws exactly when some link is refused |
| Links.RefusedLinkStopsHandle | src/uk/co/harcourtprogramming/docitten/LinkService.java:315 | a link whose normalised form URI.create refuses stops handle() at it, so no link after it is started, and that link sends no HEAD request |
| Resolver.NormaliseHasProtocol | src/uk/co/harcourtprogramming/docitten/LinkResolver.java:95-100 | any non-empty one-line link becomes a URL matching ^https?://.+ (http:// prefixed when missing), and a second pass changes nothing |
| Resolver.Normalise | src/uk/co/harcourtprogramming/docitten/LinkResolver.java:95-100 | the text handed to URI.create starts with "http://" or "https://" and ends with the link as given |
| Resolver.Follow | src/uk/co/harcourtprogramming/docitten/LinkResolver.java:125-180 | the redirect loop sends between 1 and MAX_HOPS - hops HEAD requests, the first to the current URL; a Location that does not resolve ends it in Crash before the interrupt check |
| Resolver.ResolveLink | src/uk/co/harcourtprogramming/docitten/LinkResolver.java:95-190 | the constructor and run(): the outcome and the HEAD requests sent are those of the specified resolution, so a refused link sends none and an unresolvable Location ends the thread in Crash |
| Resolver.Resolution | src/uk/co/harcourtprogramming/docitten/LinkResolver.java:95-190 | a link whose normalised form URI.create refuses gives Refused with no HEAD request, and only such a link does; otherwise a run sends between 1 and MAX_HOPS HEAD requests, the first to the normalised link, and it ends in Crash at a Location resolveLocation cannot resolve (UnresolvableLocationCrashes) |
| Resolver.FollowChain | src/uk/co/harcourtprogramming/docitten/LinkResolver.java:149-180 | each URL requested after the first is where the previous one redirected to a Location that resolved; the loop arrives only at a URL answering a success status, and gives up only after MAX_HOPS such redirects |
| Resolver.EndlessRedirectsFrom | src/uk/co/harcourtprogramming/docitten/LinkResolver.java:161-179 | with redirects everywhere, each to a Location that resolves, and no interrupt, the loop gives up |
| Resolver.EndlessRedirectsGiveUp | src/uk/co/harcourtprogramming/docitten/LinkResolver.java:178-187 | an accepted link that redirects for ever, each time to a Location that resolves, is given up after exactly five HEAD requests with "[<host>] (Unresolved after 5 hops)", and nothing is fetched |
| Resolver.UnresolvableLocationCrashes | src/uk/co/harcourtprogramming/docitten/LinkResolver.java:161-176 | a run that ends at a redirect whose Location resolveLocation (lines 293-303) cannot resolve ends in Crash, interrupted or not, and sends no further request |
| Resolver.FirstLocationUnresolvable | src/uk/co/harcourtprogramming/docitten/LinkResolver.java:161-166 | an accepted link whose first answer redirects to an unresolvable Location crashes after exactly one request, with no message |
| Resolver.ResolvedAtOnce | src/uk/co/harcourtprogramming/docitten/LinkResolver.java:151-159 | for an accepted link, a first HEAD answer with a success status leads to one fetch of that URL, unless interrupted |
| Resolver.OtherStatusQuiet | src/uk/co/harcourtprogramming/docitten/LinkResolver.java:165-170 | for an accepted link, any other status, or a redirect without Location, ends the run without a message after one request |
| Resolver.ReplyNeedsChain | src/uk/co/harcourtprogramming/docitten/LinkResolver.java:149-189 | a reply comes only after a chain of redirects that resolved or ran out of hops |
| Resolver.MimeType | src/uk/co/harcourtprogramming/docitten/LinkResolver.java:212-214 | the content type up to the first ';' (the whole of it when there is none); None where split leaves no parts and indexing throws |
| Resolver.SemicolonAt | src/uk/co/harcourtprogramming/docitten/LinkResolver.java:214 | the position of the first ';', or the length |
| Resolver.FetchData | src/uk/co/harcourtprogramming/docitten/LinkResolver.java:204-240 | the reply for the fetched page: host and title for a text page, host, type and size otherwise, "(size unknown)" for length -1 |
| Resolver.Fetch | src/uk/co/harcourtprogramming/docitten/LinkResolver.java:204-240 | an unreadable GET or a missing content type crashes the thread; every reply starts "[<host>] "; fetchData never stays quiet |
| Resolver.TextPageReply | src/uk/co/harcourtprogramming/docitten/LinkResolver.java:216-218 | a text page's reply is "[<host>] <tidied title>", whatever its length |
| Resolver.Pow1024Monotone | src/uk/co/harcourtprogramming/docitten/LinkResolver.java:71-74 | powers of 1024 grow with the exponent |
| Resolver.UnitExp | src/uk/co/harcourtprogramming/docitten/LinkResolver.java:73 | the unit exponent is the largest e >= 1 with 1024^e <= bytes |
| Resolver.Tenths | src/uk/co/harcourtprogramming/docitten/LinkResolver.java:74 | the figure shown is bytes / 1024^e rounded half up to one decimal |
| Resolver.UnitExpBound | src/uk/co/harcourtprogramming/docitten/LinkResolver.java:71-74 | byte counts of a Java long need no prefix beyond exa, so charAt(exp - 1) stays inside "kMGTPEZYH" |
| Resolver.FigureRange | src/uk/co/harcourtprogramming/docitten/LinkResolver.java:71-74 | above 1023 bytes the figure shown lies between 1.0 and 1024.0 |
| Resolver.FormatBytesSmall | src/uk/co/harcourtprogramming/docitten/LinkResolver.java:72 | 1023 bytes are shown as "1023 B" |
| Resolver.FormatBytesKibi | src/uk/co/harcourtprogramming/docitten/LinkResolver.java:74 | 2048 and 1536 bytes are shown as "2.0 kiB" and "1.5 kiB" |
| Resolver.FormatBytes | src/uk/co/harcourtprogramming/docitten/LinkResolver.java:71-75 | the text ends in "B"; below 1024 bytes it is "<n> B", otherwise it ends in "<prefix>iB" with a prefix from k to E |
| Titles.OpenTags | src/uk/co/harcourtprogramming/docitten/LinkResolver.java:256-267 | a line without an opening tag is left alone; reading is on afterwards exactly when it was on or some opening tag occurs in the line |
| Titles.CloseAt | src/uk/co/harcourtprogramming/docitten/LinkResolver.java:269-278 | a closing part is taken exactly when some closing tag occurs in the line |
| Titles.ScanTitle | src/uk/co/harcourtprogramming/docitten/LinkResolver.java:242-288 | the line loop returns exactly the specified scan of the page's lines |
| Titles.NoOpeningTagNoTitle | src/uk/co/harcourtprogramming/docitten/LinkResolver.java:249-288 | with no opening tag before the line that ends the head, or the end of the page, the title is "[No Title Set]" |
| Titles.Concat | src/uk/co/harcourtprogramming/docitten/LinkResolver.java:284-285 | the lines joined with nothing between them are empty exactly when every line is |
| Titles.PlainLinesConcatenated | src/uk/co/harcourtprogramming/docitten/LinkResolver.java:284-285 | while reading, lines without tags are appended as they are, with no separator |
| Titles.MultiLineTitle | src/uk/co/harcourtprogramming/docitten/LinkResolver.java:256-285 | a title spread over lines is the rest of the opening line, the lines between and the start of the closing line, with nothing between them |
| Titles.OpeningLine | src/uk/co/harcourtprogramming/docitten/LinkResolver.java:256-261 | an opening line starts the title with the text after the tag |
| Titles.ClosingLine | src/uk/co/harcourtprogramming/docitten/LinkResolver.java:269-273 | a closing line ends the title with the text before the tag |
| Titles.SpaceRun | src/uk/co/harcourtprogramming/docitten/LinkResolver.java:290 | the run of whitespace at the start of a text |
| Titles.NonSpaceSkip | src/uk/co/harcourtprogramming/docitten/LinkResolver.java:290 | skipping whitespace keeps the non-whitespace characters |
| Titles.Collapse | src/uk/co/harcourtprogramming/docitten/LinkResolver.java:290 | replaceAll of \s\s+ by " ": never longer, no two neighbouring whitespace characters left, the same non-whitespace characters in order, non-blank ends kept |
| Titles.Tidy | src/uk/co/harcourtprogramming/docitten/LinkResolver.java:290 | trim then collapse: no blank ends, no double whitespace, the same non-whitespace characters as the trimmed title |
| Titles.CollapseKeepsEnds | src/uk/co/harcourtprogramming/docitten/LinkResolver.java:290 | collapsing a trimmed title leaves it trimmed |
| Titles.GetTitle | src/uk/co/harcourtprogramming/docitten/LinkResolver.java:242-291 | the tidied title scanned with lower- and upper-case tags |
| Titles.GetTitleLowercase | src/uk/co/harcourtprogramming/docitten/LinkService.java:260-296 | the nested resolver's title: the scan with lower-case tags only, untidied |
| Titles.TidyNoTitle | src/uk/co/harcourtprogramming/docitten/LinkResolver.java:249-290 | "[No Title Set]" survives the tidying |
| Titles.CollapseIdentity | src/uk/co/harcourtprogramming/docitten/LinkResolver.java:290 | text without double whitespace is left unchanged |
| Titles.CollapseSplit | src/uk/co/harcourtprogramming/docitten/LinkResolver.java:290 | text ending in a non-whitespace character collapses on its own, whatever follows it |
| Titles.CollapseRun | src/uk/co/harcourtprogramming/docitten/LinkResolver.java:290 | a run of whitespace followed by the end or by a non-whitespace character becomes one space when it is two or more long, and is kept when it is one character |
| Titles.CollapseAround | src/uk/co/harcourtprogramming/docitten/LinkResolver.java:290 | each maximal run of whitespace is replaced on its own, the text on either side collapsing independently |
| Titles.TidyAround | src/uk/co/harcourtprogramming/docitten/LinkResolver.java:290 | for a trimmed title, tidying replaces an inner run of whitespace exactly as collapsing does |
| Titles.CollapseTwoSpaces | src/uk/co/harcourtprogramming/docitten/LinkResolver.java:290 | "a  b" becomes "a b" |
| Reminders.CompareLong | src/uk/co/harcourtprogramming/docitten/ReminderService.java:83-96 | Long.compareTo: negative, zero or positive exactly as the first is below, equal to or above the second |
| Reminders.Order | src/uk/co/harcourtprogramming/docitten/ReminderService.java:75-97 | the comparator's result is always -1, 0 or 1 |
| Reminders.OrderIsRankOrder | src/uk/co/harcourtprogramming/docitten/ReminderService.java:75-97 | the comparator is the lexicographic order of (kind, send time, creation time), notes ranking first |
| Reminders.OrderReflexive | src/uk/co/harcourtprogramming/docitten/ReminderService.java:77-78 | an entry compares equal to itself, so leaving out the o1 == o2 shortcut changes nothing |
| Reminders.OrderAntisymmetric | src/uk/co/harcourtprogramming/docitten/ReminderService.java:75-97 | swapping the arguments negates the result |
| Reminders.OrderTransitive | src/uk/co/harcourtprogramming/docitten/ReminderService.java:75-97 | the comparator is transitive |
| Reminders.NotesFirst | src/uk/co/harcourtprogramming/docitten/ReminderService.java:80-88 | every note sorts before every reminder, although the comment at lines 62-68 says notes sort to the bottom |
| Reminders.SameMillisecondNotesCollide | src/uk/co/harcourtprogramming/docitten/ReminderService.java:80-83 | two notes made in the same millisecond compare equal |
| Reminders.Insert | src/uk/co/harcourtprogramming/docitten/ReminderService.java:338-344 | TreeSet.add adds at most the new element |
| Reminders.BelowHead | src/uk/co/harcourtprogramming/docitten/ReminderService.java:75-97 | an element below the least one is below all of a sorted set and collides with none |
| Reminders.CollidesTail | src/uk/co/harcourtprogramming/docitten/ReminderService.java:75-97 | past a head that does not compare equal, collisions are in the tail |
| Reminders.InsertSorted | src/uk/co/harcourtprogramming/docitten/ReminderService.java:338-344 | add keeps the set sorted |
| Reminders.InsertCollision | src/uk/co/harcourtprogramming/docitten/ReminderService.java:344 | add changes nothing when an element compares equal to the new one |
| Reminders.InsertAdds | src/uk/co/harcourtprogramming/docitten/ReminderService.java:338-344 | otherwise add adds exactly the new element |
| Reminders.Without | src/uk/co/harcourtprogramming/docitten/ReminderService.java:431-433 | TreeSet.remove never adds anything |
| Reminders.SortedTail | src/uk/co/harcourtprogramming/docitten/ReminderService.java:75-97 | the tail of a sorted set is sorted |
| Reminders.WithoutIndexed | src/uk/co/harcourtprogramming/docitten/ReminderService.java:425-431 | removing the k-th element of a sorted set removes it and nothing else |
| Reminders.WithoutKeepsHead | src/uk/co/harcourtprogramming/docitten/ReminderService.java:431 | removing a later element keeps the head |
| Reminders.WithoutNone | src/uk/co/harcourtprogramming/docitten/ReminderService.java:433 | removing an element that sorts below the whole set changes nothing |
| Reminders.WithoutSorted | src/uk/co/harcourtprogramming/docitten/ReminderService.java:431-433 | removal keeps a set sorted |
| Reminders.Numbered | src/uk/co/harcourtprogramming/docitten/ReminderService.java:382-386 | line k shows the k-th entry numbered k, one line per entry |
| Reminders.Text | src/uk/co/harcourtprogramming/docitten/ReminderService.java:159-207 | a note shows its data as it is; a reminder shows a bracketed date and time before its data |
| Reminders.TextEndsWithData | src/uk/co/harcourtprogramming/docitten/ReminderService.java:201-207 | every entry's text ends with its data |
| Reminders.Line | src/uk/co/harcourtprogramming/docitten/ReminderService.java:385 | a numbered line is at least five characters longer than the entry's text |
| Reminders.LineEndsWithText | src/uk/co/harcourtprogramming/docitten/ReminderService.java:385 | a numbered line ends with ": " and the entry's text |
| Reminders.Header | src/uk/co/harcourtprogramming/docitten/ReminderService.java:381 | the header is "Active Reminders for <sender> (<n>):", and the number in it reads back as n |
| Reminders.ListReplies | src/uk/co/harcourtprogramming/docitten/ReminderService.java:361-389 | one reply for an empty list, otherwise the header and one line per entry |
| Reminders.NoteAdded | src/uk/co/harcourtprogramming/docitten/ReminderService.java:331-346 | the sender gains a set if absent; every other user's entries are unchanged |
| Reminders.FirstNoteListed | src/uk/co/harcourtprogramming/docitten/ReminderService.java:331-386 | a user's first note is listed as entry 1 under "Active Reminders for <user> (1):" |
| Reminders.NotesListedOldestFirst | src/uk/co/harcourtprogramming/docitten/ReminderService.java:80-83 | two notes made at different times are listed oldest first |
| Reminders.SameMillisecondNoteLost | src/uk/co/harcourtprogramming/docitten/ReminderService.java:333-349 | a second note made in the same millisecond is dropped by the set |
| Reminders.Removed | src/uk/co/harcourtprogramming/docitten/ReminderService.java:396-437 | any reply other than "Reminder removed." leaves both sets unchanged |
| Reminders.ListedAt | src/uk/co/harcourtprogramming/docitten/ReminderService.java:381-386 | line k of the list reply, for 1 <= k <= n, shows entry k |
| Reminders.RemoveListedEntry | src/uk/co/harcourtprogramming/docitten/ReminderService.java:396-437 | "remove k" deletes exactly the entry list shows as number k, and no other user's entries change |
| Reminders.Parse | src/uk/co/harcourtprogramming/docitten/ReminderService.java:273-292 | a command's argument is strictly shorter than the message |
| Reminders.CommandNamed | src/uk/co/harcourtprogramming/docitten/ReminderService.java:284-292 | Commands.valueOf gives badcmd exactly for a word that names none of add, remove, list, note and help |
| Reminders.ParseAddressed | src/uk/co/harcourtprogramming/docitten/ReminderService.java:278-292 | after "<nick>: reminder" the command is read from the next token |
| Reminders.AddressedReminder | src/uk/co/harcourtprogramming/docitten/ReminderService.java:278-292 | "<nick>: reminder <w>" runs the command named by the first token of w |
| Reminders.BareReminder | src/uk/co/harcourtprogramming/docitten/ReminderService.java:284-292 | "<nick>: reminder" alone is an unknown command |
| Reminders.UnaddressedIgnored | src/uk/co/harcourtprogramming/docitten/ReminderService.java:278-279 | a channel message not starting "<nick>:" is ignored |
| Reminders.ReminderService.constructor | src/uk/co/harcourtprogramming/docitten/ReminderService.java:103-109 | no user has entries and no reminder is pending |
| Reminders.ReminderService.Shutdown | src/uk/co/harcourtprogramming/docitten/ReminderService.java:237-243 | the pending reminders are cleared and users' lists stay |
| Reminders.ReminderService.AddNote | src/uk/co/harcourtprogramming/docitten/ReminderService.java:331-355 | the note joins the sender's set (created if absent); the reply is "Note Created" |
| Reminders.ReminderService.List | src/uk/co/harcourtprogramming/docitten/ReminderService.java:361-389 | the list replies for the sender's entries, or for none |
| Reminders.ReminderService.Nth | src/uk/co/harcourtprogramming/docitten/ReminderService.java:425-429 | advancing the iterator index times leaves the index-th entry, counting from 1 |
| Reminders.ReminderService.Remove | src/uk/co/harcourtprogramming/docitten/ReminderService.java:396-437 | the state and reply are those of the specified removal: usage text, nothing to remove, out of range, or the entry deleted |
| Reminders.ReminderService.Delete | src/uk/co/harcourtprogramming/docitten/ReminderService.java:431-433 | the entry leaves the user's set, and a reminder also leaves the global set |
| Reminders.ReminderService.Handle | src/uk/co/harcourtprogramming/docitten/ReminderService.java:273-314 | dispatch on the parsed command; an unknown command gets "Unknown Command" and then falls through to "See 'help reminder'" |
| Motd.Pushed | src/uk/co/harcourtprogramming/docitten/MOTDService.java:194-195 | pushing the notice being filled adds exactly one finished notice |
| Motd.Assign | src/uk/co/harcourtprogramming/docitten/MOTDService.java:220-258 | the switch on a key throws exactly for an "id" value that parseInt refuses |
| Motd.InNotice | src/uk/co/harcourtprogramming/docitten/MOTDService.java:203-258 | a line inside a notice keeps a notice being filled and leaves the finished ones alone |
| Motd.ScanFrom | src/uk/co/harcourtprogramming/docitten/MOTDService.java:183-259 | scanning from line i is one step and, unless it throws, the scan of the rest |
| Motd.LinesRead | src/uk/co/harcourtprogramming/docitten/MOTDService.java:183-268 | the scan reads at most every line |
| Motd.StepWellFormed | src/uk/co/harcourtprogramming/docitten/MOTDService.java:209-240 | content continuation is on only while a notice with content is being filled |
| Motd.StepCounts | src/uk/co/harcourtprogramming/docitten/MOTDService.java:192-200 | a line adds a notice exactly when it is "[Message]" |
| Motd.RecordPerHeader | src/uk/co/harcourtprogramming/docitten/MOTDService.java:183-281 | every "[Message]" line read starts exactly one notice, and nothing else does |
| Motd.HeadersPrefix | src/uk/co/harcourtprogramming/docitten/MOTDService.java:192 | counting headers in a prefix, one line at a time |
| Motd.RecordsOfCompleteFile | src/uk/co/harcourtprogramming/docitten/MOTDService.java:183-281 | a file read to the end has one notice per "[Message]" line |
| Motd.Records | src/uk/co/harcourtprogramming/docitten/MOTDService.java:183-281 | one notice per "[Message]" line among the lines the scan reads |
| Motd.CommentSkipped | src/uk/co/harcourtprogramming/docitten/MOTDService.java:188-189 | comment lines change nothing |
| Motd.BlankLineEndsScan | src/uk/co/harcourtprogramming/docitten/MOTDService.java:185-188 | an empty or blank line throws at charAt(0) and ends the scan: nothing after it is read |
| Motd.HeaderHasNoEquals | src/uk/co/harcourtprogramming/docitten/MOTDService.java:192-208 | the header line is never a key=value line |
| Motd.KeyValueSplit | src/uk/co/harcourtprogramming/docitten/MOTDService.java:208-221 | a key=value line splits at its first '='; the value may hold further '=' |
| Motd.KeyValueStep | src/uk/co/harcourtprogramming/docitten/MOTDService.java:217-258 | the lower-cased key picks the field the value goes to; "long" starts a content block and any other key ends it |
| Motd.BadIdEndsScan | src/uk/co/harcourtprogramming/docitten/MOTDService.java:225-227 | an id that is not a number ends the scan and the notice keeps its old id |
| Motd.ContinuationAppended | src/uk/co/harcourtprogramming/docitten/MOTDService.java:209-213 | inside a content block a line without '=' is appended to the content with no separator |
| Motd.StrayLineIgnored | src/uk/co/harcourtprogramming/docitten/MOTDService.java:209-214 | outside a content block a line without '=' is ignored |
| Motd.NoEquals | src/uk/co/harcourtprogramming/docitten/MOTDService.java:208-209 | a line without '=' has indexOf -1 |
| Motd.Notices | src/uk/co/harcourtprogramming/docitten/MOTDService.java:293-300 | one notice text per notice sent |
| Motd.ContinuedNone | src/uk/co/harcourtprogramming/docitten/MOTDService.java:293-301 | a pass that sends nothing more keeps what was sent |
| Motd.ContinuedOne | src/uk/co/harcourtprogramming/docitten/MOTDService.java:293-301 | sending one more notice appends it |
| Motd.SendFrom | src/uk/co/harcourtprogramming/docitten/MOTDService.java:293-301 | the pass from notice i is notice i, then the pass from notice i + 1 |
| Motd.SendPassBounds | src/uk/co/harcourtprogramming/docitten/MOTDService.java:293-301 | lastId never decreases; every notice sent had an id above the old lastId and a content; the new lastId is the id of the last notice sent |
| Motd.SendPass | src/uk/co/harcourtprogramming/docitten/MOTDService.java:293-301 | a pass sends at most one message per notice, and only notices of the file |
| Motd.SentIdsIncrease | src/uk/co/harcourtprogramming/docitten/MOTDService.java:293-301 | the sent ids strictly increase |
| Motd.Newer | src/uk/co/harcourtprogramming/docitten/MOTDService.java:295 | the notices above the watermark, in stack order |
| Motd.AscendingSendsAllNewer | src/uk/co/harcourtprogramming/docitten/MOTDService.java:293-301 | when the file lists notices newest first, a pass sends exactly those above lastId, oldest first, without failing |
| Motd.NewerAbove | src/uk/co/harcourtprogramming/docitten/MOTDService.java:295 | a watermark below every id selects every notice |
| Motd.DescendingSendsOnlyNewest | src/uk/co/harcourtprogramming/docitten/MOTDService.java:293-301 | when the file lists notices oldest first, a pass sends only the newest notice |
| Motd.NothingSent | src/uk/co/harcourtprogramming/docitten/MOTDService.java:293-301 | no id above lastId: nothing is sent and lastId is unchanged |
| Motd.RestartSendsNothing | src/uk/co/harcourtprogramming/docitten/MOTDService.java:285-301 | after a restart on a file listing notices newest first, nothing in it is announced again |
| Motd.AddressedWord | src/uk/co/harcourtprogramming/docitten/MOTDService.java:311 | consuming "<nick>:" leaves the command word |
| Motd.MotdWord | src/uk/co/harcourtprogramming/docitten/MOTDService.java:314 | the command word is not blank |
| Motd.AddressedMotd | src/uk/co/harcourtprogramming/docitten/MOTDService.java:311-315 | "<nick>: motd" asks for the message of the day |
| Motd.MotdWithArgumentIgnored | src/uk/co/harcourtprogramming/docitten/MOTDService.java:314-315 | "<nick>: motd <word>" is not the command |
| Motd.MotdService.constructor | src/uk/co/harcourtprogramming/docitten/MOTDService.java:35-43 | lastId and lastModified start at 0 |
| Motd.MotdService.Start | src/uk/co/harcourtprogramming/docitten/MOTDService.java:111-125 | the constructor's initial pass sends nothing and takes lastId from the first notice in the file; None where that id is null |
| Motd.MotdService.ParseFile | src/uk/co/harcourtprogramming/docitten/MOTDService.java:169-281 | the scan loop yields exactly the notices of the file, most recent first |
| Motd.MotdService.NoticeLine | src/uk/co/harcourtprogramming/docitten/MOTDService.java:203-258 | one line inside a notice, as specified |
| Motd.MotdService.ProcessFile | src/uk/co/harcourtprogramming/docitten/MOTDService.java:169-302 | records the modification time; the initial pass only sets lastId; a later pass sends what the specified pass sends |
| Motd.MotdService.Announce | src/uk/co/harcourtprogramming/docitten/MOTDService.java:293-301 | the sending loop sends the specified notices and leaves lastId as the pass does |
| Motd.MotdService.Poll | src/uk/co/harcourtprogramming/docitten/MOTDService.java:145-161 | a pass runs only when the file changed since the last one; otherwise nothing changes |
| Motd.MotdService.Handle | src/uk/co/harcourtprogramming/docitten/MOTDService.java:305-331 | "motd" alone is answered with the motd file, each line followed by a newline; anything else gets no reply |
| Motd.NoticesSnoc | src/uk/co/harcourtprogramming/docitten/MOTDService.java:293-300 | one more notice adds its text at the end |
| Dice.ParseModeNamed | src/uk/co/harcourtprogramming/docitten/DiceService.java:157-169 | text whose trimmed, upper-cased form is SUM, PRODUCT or BASE parses to that mode |
| Dice.ParseModeDefault | src/uk/co/harcourtprogramming/docitten/DiceService.java:157-169 | a missing mode group, or text naming no mode (valueOf throws), gives SUM |
| Dice.ParseMode | src/uk/co/harcourtprogramming/docitten/DiceService.java:157-169 | a missing mode is SUM; a mode other than SUM comes only from text whose trimmed, upper-cased form is its name |
| Dice.PowerOfTwo | src/uk/co/harcourtprogramming/docitten/DiceService.java:120 | (int) Math.pow(2, e) is exactly 2^e up to e = 30, and the cast saturates at Integer.MAX_VALUE above that; the result is a non-negative int |
| Dice.PowBound | src/uk/co/harcourtprogramming/docitten/DiceService.java:120 | 2^e for e up to 30 lies between 1 and 2^30, so the cast is exact |
| Dice.ParseDie | src/uk/co/harcourtprogramming/docitten/DiceService.java:87-104 | a die is read only when its count and its sides are both values Integer.parseInt accepts; otherwise the constructor throws (None) |
| Dice.ReadDie | src/uk/co/harcourtprogramming/docitten/DiceService.java:98-103 | the count read before the 'd' is the die's count, and the sides are a parsed int |
| Dice.ParseCountedDie | src/uk/co/harcourtprogramming/docitten/DiceService.java:87-104 | "<count>d<sides>" and "<count>d<sides>d" are read as that count of dice, those sides, doubling exactly when the spec ends in 'd' |
| Dice.ParseSingleDie | src/uk/co/harcourtprogramming/docitten/DiceService.java:92-94 | "d<sides>[d]" with an empty count is a single die |
| Dice.DigitsUntrimmed | src/uk/co/harcourtprogramming/docitten/DiceService.java:92 | trim leaves a run of digits as it is |
| Dice.Faces | src/uk/co/harcourtprogramming/docitten/DiceService.java:114-120 | one face per draw: the draw plus one (not in BASE mode), raised to a power of two when doubling |
| Dice.FaceRange | src/uk/co/harcourtprogramming/docitten/DiceService.java:114-120 | every face lies on the die: 1..sides, 0..sides-1 in BASE mode, and a power of two or the saturated cap when doubling |
| Dice.SumFold | src/uk/co/harcourtprogramming/docitten/DiceService.java:125-128 | roll() in SUM mode returns the sum of the faces, wrapped to a 32-bit int |
| Dice.ProductFold | src/uk/co/harcourtprogramming/docitten/DiceService.java:108-110 | roll() in PRODUCT mode starts at 1 and returns the product of the faces, wrapped to a 32-bit int |
| Dice.BaseFold | src/uk/co/harcourtprogramming/docitten/DiceService.java:131-134 | roll() in BASE mode returns the number the faces spell as base-sides digits, wrapped to a 32-bit int |
| Dice.HornerBounds | src/uk/co/harcourtprogramming/docitten/DiceService.java:131-134 | digits below the base spell a number between 0 and base^count |
| Dice.BaseInRange | src/uk/co/harcourtprogramming/docitten/DiceService.java:131-134 | a BASE roll of a non-doubling die whose sides^count fits an int never wraps and lies below sides^count |
| Dice.Roll | src/uk/co/harcourtprogramming/docitten/DiceService.java:106-139 | roll() returns the fold of the faces for the mode, and fills the rolls array (when given) with exactly those faces |
| Dice.Pieces | src/uk/co/harcourtprogramming/docitten/DiceService.java:45 | the pieces between spaces contain no space |
| Dice.PiecesSpaced | src/uk/co/harcourtprogramming/docitten/DiceService.java:45 | joining the pieces back with single spaces gives the original text |
| Dice.DropEmptyTail | src/uk/co/harcourtprogramming/docitten/DiceService.java:45 | split drops only trailing empty pieces, keeps the rest in order, and leaves no empty last piece |
| Dice.Split | src/uk/co/harcourtprogramming/docitten/DiceService.java:45 | no piece holds a space; when the text holds a space, any last piece is not empty (" " gives no pieces); text without a space is one piece |
| Dice.AddDie | src/uk/co/harcourtprogramming/docitten/DiceService.java:56-70 | each rolled spec adds exactly one result after the earlier ones, combined into the running total for the mode |
| Dice.RollSpec | src/uk/co/harcourtprogramming/docitten/DiceService.java:58-63 | one loop iteration: parse the spec, roll it into a fresh array and give the "I got <roll> for <die> [<faces>]" line, or throw |
| Dice.DieLineShape | src/uk/co/harcourtprogramming/docitten/DiceService.java:62-63 | a die's line starts "I got <roll> for " and ends with a newline |
| Dice.DieOutcome | src/uk/co/harcourtprogramming/docitten/DiceService.java:58-63 | a die that does not throw gives a line starting "I got <roll> for " and ending with a newline, and that roll |
| Dice.TallyAdvance | src/uk/co/harcourtprogramming/docitten/DiceService.java:56-70 | a spec that rolls appends its line, combines its roll into the total and records its result |
| Dice.TallyThrows | src/uk/co/harcourtprogramming/docitten/DiceService.java:58 | a spec that throws makes the whole handle throw, with no reply |
| Dice.TallyFailStays | src/uk/co/harcourtprogramming/docitten/DiceService.java:56-70 | once a spec has thrown, later specs do not bring a reply back |
| Dice.TallyTotal | src/uk/co/harcourtprogramming/docitten/DiceService.java:48-75 | after all specs the total is the wrapped sum (SUM) or product (PRODUCT) of the per-die results, one result per spec |
| Dice.RollDice | src/uk/co/harcourtprogramming/docitten/DiceService.java:56-70 | the loop over the specs gives the reply lines and the total exactly when no spec throws |
| Dice.Handle | src/uk/co/harcourtprogramming/docitten/DiceService.java:39-79 | a message without a dice command gets no reply; otherwise the reply is every die's line followed by "Total: <n>" in SUM and PRODUCT modes, or nothing when a spec throws |
| Dice.DiceReply | src/uk/co/harcourtprogramming/docitten/DiceService.java:44-76 | no match, no reply; otherwise the reply starts with the die lines, and is just those lines exactly in BASE mode |
| Streams.Equals | src/uk/co/harcourtprogramming/docitten/social/SocialStream.java:41-53 | equals holds exactly for another stream with the same connector, kind and search text, and is false for anything that is not a stream |
| Streams.StringHashPolynomial | src/uk/co/harcourtprogramming/docitten/social/SocialStream.java:61 | String.hashCode is the polynomial in 31 of the character codes, wrapped to a 32-bit int |
| Streams.EqualsSameHash | src/uk/co/harcourtprogramming/docitten/social/SocialStream.java:56-63 | equal streams have equal hash codes |
| Streams.HashPolynomial | src/uk/co/harcourtprogramming/docitten/social/SocialStream.java:56-63 | hashCode is 7·89³ + c·89² + k·89 + s over the field hashes, wrapped to a 32-bit int |
| Streams.Hash | src/uk/co/harcourtprogramming/docitten/social/SocialStream.java:56-63 | hashCode is always a 32-bit int |
| Streams.StringHash | src/uk/co/harcourtprogramming/docitten/social/SocialStream.java:61 | String.hashCode is always a 32-bit int, and 0 for the empty string |
| Streams.CompareTo | src/uk/co/harcourtprogramming/docitten/social/SocialStream.java:23-38 | compareTo is 0 only for streams whose connectors have the same name; for the same connector, only when the kind and the search text are equal too |
| Streams.CompareToSelf | src/uk/co/harcourtprogramming/docitten/social/SocialStream.java:23-38 | a stream compares 0 with itself |
| Streams.CompareToAntisymmetric | src/uk/co/harcourtprogramming/docitten/social/SocialStream.java:23-38 | a.compareTo(b) < 0 exactly when b.compareTo(a) > 0 |
| Streams.CompareToZeroIffEquals | src/uk/co/harcourtprogramming/docitten/social/SocialStream.java:23-38 | when distinct connectors have distinct names, compareTo is 0 exactly for streams that are equal |
| Streams.SameNameComparesEqual | src/uk/co/harcourtprogramming/docitten/social/SocialStream.java:25-27 | two different connectors with the same name make unequal streams compare 0 |
| Social.Shown | src/uk/co/harcourtprogramming/docitten/social/SocialNetworkService.java:246-253 | a title of at most 80 characters is shown whole; a longer one is cut to its first 60 characters plus an ellipsis |
| Social.ShownBounded | src/uk/co/harcourtprogramming/docitten/social/SocialNetworkService.java:246-253 | a shown title is never longer than 80 characters nor than the title, and is the title or its 60-character prefix plus the ellipsis |
| Social.PostLines | src/uk/co/harcourtprogramming/docitten/social/SocialNetworkService.java:240-258 | one message to the target per post, in order, each "<user> - <title> [<url>]" |
| Social.SocialStreamTask.constructor | src/uk/co/harcourtprogramming/docitten/social/SocialNetworkService.java:200-204 | a new task has its target and stream and has seen no post yet |
| Social.SocialStreamTask.Run | src/uk/co/harcourtprogramming/docitten/social/SocialNetworkService.java:207-259 | searches for posts after the latest id seen; with none, nothing is sent and latest stays; otherwise latest becomes the first post's id and each post is sent to the target in order |
| Social.TaskFor | src/uk/co/harcourtprogramming/docitten/social/SocialNetworkService.java:82-88 | the index of the first task for the target, or -1 when no task has that target |
| Social.FindTask | src/uk/co/harcourtprogramming/docitten/social/SocialNetworkService.java:149-157 | the loop over the tasks finds the first task for the target, or none |
| Social.Targets | src/uk/co/harcourtprogramming/docitten/social/SocialNetworkService.java:84 | the targets of the tasks, in order |
| Social.ArgumentError | src/uk/co/harcourtprogramming/docitten/social/SocialNetworkService.java:43-73 | no error only when target, network, kind and search are given, the search is not empty, the period is given (Follow) and the network is registered |
| Social.NullTargetFirst | src/uk/co/harcourtprogramming/docitten/social/SocialNetworkService.java:43-46 | a missing target is reported first, whatever else is wrong |
| Social.UnknownNetworkLast | src/uk/co/harcourtprogramming/docitten/social/SocialNetworkService.java:68-73 | "Network not found" is reported only once every other argument is valid and the network is unregistered |
| Social.SocialNetworkService.constructor | src/uk/co/harcourtprogramming/docitten/social/SocialNetworkService.java:31-34 | a new service has no networks, follows nothing and has scheduled nothing |
| Social.SocialNetworkService.AddNetwork | src/uk/co/harcourtprogramming/docitten/social/SocialNetworkService.java:36-39 | putIfAbsent: the network is added, and true returned, exactly when the name is absent or maps to null; nothing else changes |
| Social.SocialNetworkService.Follow | src/uk/co/harcourtprogramming/docitten/social/SocialNetworkService.java:41-109 | each invalid argument throws its IllegalArgumentException and changes nothing; a target already following the stream changes nothing and returns true; otherwise a fresh task for the target is scheduled with period.toNanos() and true returned, unless scheduling throws: an overflowing toNanos throws ArithmeticException and a non-positive one IllegalArgumentException "Non-positive period.", with nothing scheduled; a task added to an existing stream's list stays there, while a new stream is not recorded |
| Social.ScheduleError | src/uk/co/harcourtprogramming/docitten/social/SocialNetworkService.java:93 | the argument period.toNanos() throws ArithmeticException exactly outside the long range; within it, Timer.scheduleAtFixedRate throws IllegalArgumentException "Non-positive period." exactly for a period <= 0; no error only for 0 < nanos <= Long.MAX_VALUE |
| Social.NonPositivePeriodRefused | src/uk/co/harcourtprogramming/docitten/social/SocialNetworkService.java:103 | a zero or negative period in the long range is refused with "Non-positive period." |
| Social.PostLine | src/uk/co/harcourtprogramming/docitten/social/SocialNetworkService.java:241-256 | the line is "<user> - ", the shown title, " [", the url and "]": its length is theirs plus six, it starts with the user and " - " and ends with the url and "]" |
| Social.SocialNetworkService.Unfollow | src/uk/co/harcourtprogramming/docitten/social/SocialNetworkService.java:110-160 | each invalid argument throws and changes nothing; an unknown stream or target returns false and changes nothing; otherwise the target's task is cancelled and removed from the stream's list, and true is returned |
| Social.RemovedDistinct | src/uk/co/harcourtprogramming/docitten/social/SocialNetworkService.java:154 | removing one task keeps the targets distinct and adds no task |
| Social.FollowedTargetFound | src/uk/co/harcourtprogramming/docitten/social/SocialNetworkService.java:90-95 | after following, the new target's task is found at the end of the list |
| Social.UnfollowedTargetGone | src/uk/co/harcourtprogramming/docitten/social/SocialNetworkService.java:149-156 | after unfollowing, no task for that target is left on the stream |
| Json.KeyIndex | src/org/json/simple/JSONObject.java:166 | the entry holding the key, and -1 exactly when no entry holds it |
| Json.KeyIndexUnique | src/org/json/simple/JSONObject.java:166 | with distinct keys, the entry found for a key is the one entry holding it |
| Json.ObjectText | src/org/json/simple/JSONObject.java:82-110 | "null" for a null map, otherwise text that opens with '{' and closes with '}' |
| Json.JoinedSnoc | src/org/json/simple/JSONObject.java:94-106 | appending an entry adds a comma before it unless it is the first |
| Json.JoinedCommas | src/org/json/simple/JSONObject.java:94-106 | the entries are separated by exactly one comma less than their number, besides the commas inside them |
| Json.JoinedLength | src/org/json/simple/JSONObject.java:94-106 | the body's length is the entries' total length plus one separator between each pair |
| Json.SmallObjects | src/org/json/simple/JSONObject.java:82-110 | an empty map is "{}", and a one-entry map is its entry between braces |
| Json.EntryText | src/org/json/simple/JSONObject.java:118-134 | an entry's text starts with the quote that opens its key |
| Json.EntryTexts | src/org/json/simple/JSONObject.java:105-106 | one entry text per entry, in iteration order |
| Json.MapToJSONString | src/org/json/simple/JSONObject.java:82-110 | the loop with its first flag builds "null" or "{" + the entries joined by commas + "}" |
| Json.EntryToString | src/org/json/simple/JSONObject.java:142-147 | toString(key, value) is the entry's text, the same text a one-entry object holds between its braces |
| Json.JSONObject.constructor | src/org/json/simple/JSONObject.java:19 | a new object holds no entries |
| Json.JSONObject.Get | src/org/json/simple/JSONObject.java:166 | a missing key gives null; a present key gives its value |
| Json.JSONObject.GetString | src/org/json/simple/JSONObject.java:164-172 | a String exactly when the value is a string, that string, and null otherwise |
| Json.JSONObject.GetNumber | src/org/json/simple/JSONObject.java:174-182 | a Number exactly when the value is a number, and null otherwise |
| Json.JSONObject.GetBoolean | src/org/json/simple/JSONObject.java:184-192 | a Boolean exactly when the value is a boolean, and null otherwise |
| Json.JSONObject.GetObject | src/org/json/simple/JSONObject.java:194-202 | a JSONObject exactly when the value is one, and null otherwise |
| Json.JSONObject.GetArray | src/org/json/simple/JSONObject.java:204-212 | a JSONArray exactly when the value is one, and null otherwise |
| Json.JSONObject.GetArrayIterator | src/org/json/simple/JSONObject.java:214-226 | the elements of any iterable value, arrays included, and null for everything else |
| Json.JSONObject.ToJSONString | src/org/json/simple/JSONObject.java:112-116 | the object's own text as toJSONString(Map) gives it |
| Json.JSONObject.ToString | src/org/json/simple/JSONObject.java:136-140 | toString is toJSONString |
| Json.MissingKeyGivesNull | src/org/json/simple/JSONObject.java:164-226 | every typed getter returns null for a missing key |
| Json.GettersExclusive | src/org/json/simple/JSONObject.java:164-212 | at most one typed getter returns a value for a key |
| Json.ArrayIteratorAgrees | src/org/json/simple/JSONObject.java:204-226 | an array is iterated as its own elements, and an object value is not iterable |
| Ordered.Insert | src/uk/co/harcourtprogramming/docitten/LinkService.java:329-338 | adding to the TreeSet keeps it ascending, adds exactly the new element, and leaves a set that already holds it unchanged |
| Ordered.Lookup | src/uk/co/harcourtprogramming/docitten/HelpService.java:264 | TreeMap.get: null exactly when the key is absent, otherwise the value stored under it |
| Ordered.PutEntry | src/uk/co/harcourtprogramming/docitten/HelpService.java:93-96 | TreeMap.put keeps the keys sorted and adds exactly the new key |
| Ordered.PutPrevious | src/uk/co/harcourtprogramming/docitten/HelpService.java:93-96 | put returns the value previously stored under the key, or null |
| Ordered.PutThenLookup | src/uk/co/harcourtprogramming/docitten/HelpService.java:93-96 | after put, the key gives the new value and every other key what it gave before |
| Strings.ParseIntToString | src/uk/co/harcourtprogramming/docitten/ReminderService.java:401 | Integer.parseInt reads back every int's decimal text |
| Strings.CompareZeroIffEqual | src/uk/co/harcourtprogramming/docitten/social/SocialStream.java:37 | String.compareTo is 0 exactly for equal strings |
| Strings.CompareAntisymmetric | src/uk/co/harcourtprogramming/docitten/social/SocialStream.java:37 | String.compareTo changes sign when its operands swap |
| Strings.CompareTransitive | src/uk/co/harcourtprogramming/docitten/social/SocialStream.java:37 | String.compareTo orders strings transitively |
| Strings.Compare | src/uk/co/harcourtprogramming/docitten/social/SocialStream.java:37 | when one string is a prefix of the other, compareTo is the difference of the lengths |
| Strings.ParseInt | src/uk/co/harcourtprogramming/docitten/MOTDService.java:226 | Integer.parseInt accepts only an optional sign followed by at least one digit, and its value is a 32-bit int |
| Strings.PadLeft | src/uk/co/harcourtprogramming/docitten/ReminderService.java:385 | "%3d" pads the number with spaces on the left to three characters, never cutting it |
| Strings.Trim | src/uk/co/harcourtprogramming/docitten/MOTDService.java:185 | String.trim removes exactly the leading and trailing characters at or below the space |

## Left out

- Sockets and HTTP are not modelled. `HttpURLConnection`, DNS, timeouts and header access become the `Web` oracle. `URI.getHost` is an uninterpreted function in it. So are the syntax check of `URI.create` (`isUri`) and `URI.resolve` followed by `toURL` (`resolve`), which gives `None` where either throws. The model does not decide which texts RFC 2396 accepts or which schemes have a URL handler; it only follows what the oracle says.
- Social.ScheduleError: `Duration.toNanos` is modelled as an overflow check on the exact nanosecond count, which becomes an input. The `Timer` being already cancelled after `shutdown` (an IllegalStateException) is not modelled, because the model never cancels the timer.
- Threads are not modelled: thread groups, daemon threads, `synchronized` and `java.util.Timer`. `interrupted()` becomes an input per request. The social service's timer only records each scheduled task in the ghost `scheduled` list; a task's runs are calls to `Run`.
- Resolver.UnitExp: `humanReadableByteCount` is modelled with exact arithmetic. The exponent is the largest e with 1024^e <= bytes, and the figure is rounded half up to tenths. The double rounding of `Math.log` and `%.1f` at exact powers of 1024 is not modelled.
- The regular expression engine is not modelled:
  - `uriPattern` in `LinkService` is an abstract list of matches;
  - `protocolPattern` is written out as a scanner;
  - `dicePattern` becomes its two captured groups, given as input;
  - `String.split(" ")` and `String.matches(word + "!*")` are written out.
- The chat library's `MessageTokeniser` is not part of this model. Its consume and next-token behaviour is assumed, as the `Tokens` module states, and so are the message records of module `Irc`.
- Clocks and calendars are parameters: the recorded line's time stamp, the note's creation time, a reminder's `%tD %tR` rendering and the MOTD file's modification time.
- File input is not modelled. The MOTD files are given as their lines, already read. The tag stripping that `MOTDService.Message.toString` does with regular expressions is a parameter.
- Logging is not modelled.
- `Random` is not modelled. Each die gets its draws as input, within [0, sides).
- `ReminderService.run` is not modelled, because it is the clock-driven sender of timed reminders. `ReminderService.add` only answers "Not yet implemented (sorry!)", and `Reminders.ReminderService.Handle` gives exactly that reply for the add command.
- `JSONValue.escape` and `JSONValue.toJSONString` are parameters of the serialiser. So are `writeJSONString` and the JSON parser, which are outside `JSONObject`.
- A `Number` value is modelled as a real number.
- `HashMap` iteration order becomes the order of the entries sequence. The order of `following` is never observed.
- Streams.Hash takes the enum constants' hash codes as a parameter. They are `Object` identity hashes.
- The declaration of `SearchMethod` is not part of this model. Its constants are taken to be declared in the order SEARCH, TAG, USER, as the stream task's switch lists them.
- A Java `String` is a sequence of UTF-16 code units, but a Dafny `string` here is a sequence of characters, each standing for one code point. The members below therefore agree with Java only for text without supplementary characters (those outside the Basic Multilingual Plane, which Java stores as surrogate pairs):
- Strings.Compare: `String.compareTo` compares UTF-16 units, and the model compares code points. The two orders differ between a supplementary character and a character from U+E000 to U+FFFF.
- Strings.ParseInt: only the ASCII digits '0'-'9' are accepted. `Integer.parseInt` also accepts the other Unicode decimal digits.
- Streams.StringHashPolynomial, Streams.StringHash and Streams.Codes: `String.hashCode` is taken over UTF-16 units, and the model takes the polynomial over code points. A supplementary character contributes its two surrogates in Java and one value here.
- Social.Shown: `String.length` and the 60-character cut count UTF-16 units, and the model counts code points. Java can also cut a surrogate pair in half, which the model cannot express.
- Case mapping is only for ASCII letters: `toUpperCase`, `toLowerCase` and `equalsIgnoreCase` cover 'a'-'z' and 'A'-'Z' only.
- The JVM's default Locale is taken to be an English one. `String.format("%.1f %siB", …)` (LinkResolver.java:74, LinkService.java:115) is modelled with '.' as the decimal separator and ASCII digits, where a German locale prints "1,5 kiB". The MOTD key's `toLowerCase()` (MOTDService.java:220) and the dice mode's `toUpperCase()` (DiceService.java:163) are modelled without the locale's rules, where a Turkish locale turns "ID" into "ıd".
- The social post line uses U+2026 for the ellipsis the source file writes.
- Links.LegacyFollow: the nested resolver has no hop limit. The model follows at most `fuel` requests and reports `OutOfFuel` when they are used up.
- The other service files are not part of this model. They are the kitten, lookup, Giphy, Spotify, cat picture, distro and log services, the git tracker and the netcat package.
- `HelpInfo.getChildren` returns a read-only view, so nothing outside a node can change its children. The model has no view: `children` is only reassigned by `AddChild`.

## Where the code and its documentation differ

The model follows the code in each case:

- the success statuses of `LinkResolver.run` are 200, 201, 202, 204, 205, 206 and 304. Descriptions that list 203 among them do not match the switch at LinkResolver.java:151-158;
- the content-type test in `fetchData` matches the raw `Content-Type` header, parameters included, and is case-sensitive (LinkResolver.java:216). A null header makes it throw, even though the MIME type derived from it is null-guarded;
- `reminderOrderer` puts every note before every reminder, although its comment says that notes go to the bottom (`Reminders.NotesFirst`). Two notes made in the same millisecond compare equal, so the second is lost (`Reminders.SameMillisecondNoteLost`). `note()` sleeps 2 ms after each add (ReminderService.java:347-353), so notes handled one after another on one thread never share a millisecond. The loss needs two messages handled concurrently;
- `LinkService`'s `protocolPattern` runs to the next whitespace, so the link in "[https://github.com]" keeps its closing bracket (`Links.BracketedLink`). Tests that expect the bracket to be dropped were written against a stricter pattern. A bracket is not allowed in that place of a URI, so `URI.create` refuses such a link and the `LinkResolver` constructor throws inside `handle` (LinkService.java:315): no HEAD request is sent, nothing is replied, and the links after it in the sorted set are never started (`Links.RefusedLinkStopsHandle`);
- the MOTD pass walks the notices from the end of the file and raises its watermark as it goes. A file listing notices oldest first therefore announces only its newest notice (`Motd.DescendingSendsOnlyNewest`);
- `SocialStream.compareTo` compares connectors by name. Two different connectors with the same name make unequal streams compare 0, so the ordering can disagree with `equals` (`Streams.SameNameComparesEqual`);
- `SocialNetworkService.follow` passes `period.toNanos()` to `Timer.scheduleAtFixedRate`, which takes its period in milliseconds, so a stream is polled a million times less often than asked. When scheduling throws for a stream already followed, the new task has already been added to its list and stays there, never scheduled (`Social.SocialNetworkService.Follow`);
- the nested `LinkService.LinkResolver` follows redirects without limit for as long as each Location resolves (`Links.LegacyNeverGivesUp`). The standalone `LinkResolver` stops after five hops (`Resolver.EndlessRedirectsGiveUp`).
