# Verified models of the NemoClaw core

Dafny models of the parts of NemoClaw that keep state over many steps, rewrite
text, compute fixpoints or edit configuration documents, with proofs of what
those parts are for. One module stands for one component:

| component | modules |
|---|---|
| Discord facade: gateway peers, polling, token table | `Discord`, `Gateway`, `Polling`, `Mirror`, `Grammar`, `LastPages`, `Broadcasts`, `TimedTable`, `TokenTable` |
| Hermes YAML printer | `YamlScalars`, `YamlReader`, `YamlPrinter`, `YamlRoundTrip` |
| Slack placeholder rewriters and the decode proxy | `Utf8`, `Utf8Repair`, `Placeholders`, `Boundaries`, `SlackRewriter`, `HeaderLines`, `DecodeProxy`, `RequestLine` |
| Brace matcher of the RCF patch | `BraceScanner` |
| Command lines shown by the runner | `ShellQuote` |
| Weak-type search | `WeakTypes` |
| Source-shape scan | `SourceVars` |
| Dotted configuration keys | `Documents`, `Dotpath`, `ConfigTree` |
| Policy presets | `Policies`, `PolicyText`, `PolicyMerge` |
| Sandbox creation stream | `CreateStream`, `StreamBytes`, `StreamDisplay` |
| Session runtime cache | `SessionCache` |
| Messaging overlaps and settings | `Overlaps`, `ChannelConfig` |
| Model-specific setups | `PythonJson`, `SetupEffects` |
| Heading repair | `Headings` |

`Text` holds what they share. Code that changes state is a class or a method
with loops, proved equal to a function on values; the lemmas are about those
functions. Clock readings, pages, payloads, exit codes and answers of outside
programs are inputs. Time only has to be non-decreasing where a lemma says so.

`dafny verify dfyconfig.toml` checks everything.

## What does not hold

Some promises fail for some inputs. The code is modelled as it is; for each
there is a lemma with a failing input and one that says exactly when the
promise is kept.

- The events of a message come in order, creates and deletes alternating. Not
  when a send raises in the middle of a poll: a delete can come twice
  (`Grammar.CutDeleteComesTwice`). Exactly the cuts described by
  `Grammar.Harmless` do no damage: `Grammar.CutKeepsOrderIff`. Nor when two
  channels share a message (`Grammar.SharedIdDeletedTwice`); exact condition:
  `Grammar.EventsInOrderIff`.
- A client holds the last page of every channel. Not after a poll that a raising
  send cut (`LastPages.CutCreateGoesStale`,
  `LastPages.UnservedCreateIsNeverHeard`); exact conditions:
  `LastPages.CutShowsIff` for the cut, `LastPages.NextPagesShowIff` for any
  state. Not after a full page of 25 (`LastPages.FullPageGoesStale`); exact
  condition: `LastPages.PageHeldIff`. Not when channels share a message
  (`LastPages.SharedIdIsLost`); exact condition: `LastPages.LastPagesHeldIff`.
- Merging presets keeps every other section, merging again changes nothing,
  key-disjoint presets can be merged in any order, removing a preset leaves the
  rest, and merged presets are reported. Not when a text that is read has three
  dashes: everything up to them is dropped (`PolicyMerge.DashesCutSections`). A
  preset with the key `a---b` loses sections when merged twice, leaves only
  `b: {}` when removed, gives other sections merged first than merged last, and
  is not reported when another follows (`PolicyMerge.DashedPresetMergedTwice`,
  `PolicyMerge.DashedPresetRemoved`, `PolicyMerge.DashedPresetOrder`,
  `PolicyMerge.DashedPresetNotReported`). A text is read in full exactly under
  `PolicyMerge.ReadInFullIff`. The laws hold exactly under
  `PolicyMerge.MergeTextAgainIff`, `PolicyMerge.MergeTextTwoIff`,
  `PolicyMerge.MergeAllTextIff`, `PolicyMerge.MergeTextOrderIff`,
  `PolicyMerge.RemoveTextIff` and `PolicyMerge.MergedReportedIff`, and always
  for printable documents. A section named `__proto__` is lost in every merge
  (`PolicyMerge.MergedSections`).
- The order of presets matters for the text even so: printed keys keep the order
  in which they were added, and two new presets come out in the order in which
  they were merged (`PolicyMerge.NewPresetsOrder`). What is read of the texts has
  the same sections and entries in any order. The texts are the same exactly
  under `PolicyMerge.TwoPresetsOrderIff`, and under `PolicyMerge.MergeTextOrder`
  for lists of presets.
- `toYaml` output reads back as the object printed: not with null or nested
  array items, empty-object items, plain strings spelled like another value,
  like an item or with a carriage return, or a key at the top such as `--- a`,
  whose line is a document marker (`YamlRoundTrip.NullItemIsLost`,
  `YamlRoundTrip.PlainStringsAreLost`, `YamlRoundTrip.MarkerKeyIsLost`). Exact
  condition: `YamlRoundTrip.RoundTripIff`.
- Content-Length follows a rewritten body in the preload: not for chunks written
  after the headers were sent (`SlackRewriter.LatePlaceholderBreaksLength`).
  Exact condition: `SlackRewriter.LengthKeptIff`.
- A body is rewritten however it is cut into chunks: not when a cut goes through
  the fixed part of a placeholder, which is then sent as it is
  (`Boundaries.CutPlaceholder`). Exact condition: `SlackRewriter.BodyRewrittenIff`.
- The decode proxy's Content-Length headers all state the forwarded body's size:
  not when the first one is 0 and another is not
  (`DecodeProxy.SecondLengthKept`). Exact condition:
  `DecodeProxy.LengthsAgreeIff`.
- Upstream reads the header lines that the proxy forwards, and a second proxy
  forwards the same bytes: not when the input ends inside a header line
  (`DecodeProxy.ColonLineUnfinished`). Exact conditions:
  `DecodeProxy.UpstreamReadsBackIff`, `DecodeProxy.ForwardIsIdempotentIff`.
- Upstream reads the forwarded request line as its method, decoded target and
  version: not when the target escapes a line feed or a space
  (`RequestLine.EscapesSplitTheLine`). Exact conditions:
  `RequestLine.RequestReadsBackIff`, and `RequestLine.MessageReadsBackIff` for
  the whole message.
- `textBasedMerge` inserts the entries exactly once: not when the section is only
  seen behind a bare carriage return (`PolicyText.EntriesLostAfterReturn`). Exact
  condition: `PolicyText.SplicedIff`.
- A null injection means an unchanged fingerprint: fields that contain a bar can
  collide (`SessionCache.BarsCollide`). Exact condition:
  `SessionCache.SerializeIsExact`.
- The hundred sessions written last are remembered: which ones is open when they
  share a clock reading (`SessionCache.TieForgets`). What holds with and without
  ties: `SessionCache.NewestAreKept`, `SessionCache.NullIsExact`.
- Each overlap is listed once, and no sandbox with itself: not when a sandbox
  lists a channel twice (`Overlaps.RepeatedChannelOverlapsItself`). Exact
  condition: `Overlaps.OverlapsListedOnceIff`.
- The written configuration does not depend on the setups' order: not when two
  setups give values that Python finds equal but writes differently
  (`SetupEffects.TrueAndOne`). Exact condition: `SetupEffects.WrittenIff`.
- Writing back what a key leads to changes nothing: not for names that every
  object inherits (`Dotpath.ValueOfIsWritten`). Exact conditions:
  `Dotpath.WriteBackIff`, and `Dotpath.LookElsewhereIff` for other keys.
- The creation stream does not depend on how its output is cut: not inside a
  character (`StreamBytes.CheckMarkCut`). Exact condition:
  `StreamBytes.ReadWholeIff`.

## Model

| member | source | states |
|---|---|---|
| `TokenTable.InteractionTokens.Prune` | agents/hermes/discord-facade.py:704-713 | pruning drops the expired entries and then the oldest ones beyond 1024, and keeps all others |
| `TokenTable.InteractionTokens.PopExpired` | agents/hermes/discord-facade.py:705-708 | exactly the entries whose expiry has come are dropped |
| `TokenTable.InteractionTokens.PopOldest` | agents/hermes/discord-facade.py:709-713 | exactly the given number of entries that expire first is dropped |
| `TokenTable.InteractionTokens.Store` | agents/hermes/discord-facade.py:689-695 | prune, store with an expiry, prune again, each at its own clock reading |
| `TokenTable.InteractionTokens.Resolve` | agents/hermes/discord-facade.py:697-702 | what is looked up is looked up after pruning |
| `TokenTable.InteractionTokens.Localize` | agents/hermes/discord-facade.py:680-687 | a non-empty token is shown under its local name and stored; an empty one changes nothing |
| `TokenTable.TableRefinesHistory` | agents/hermes/discord-facade.py:680-713 | in every run with a clock that never goes back the table is the unexpired part of the newest 1024 stores, so never above 1024 and never expired |
| `TokenTable.ResolveIsExact` | agents/hermes/discord-facade.py:697-713 | a local name resolves to the token of the store that created it exactly when that store has not expired and fewer than 1024 stores followed it; otherwise to nothing |
| `Gateway.GatewayPeer.SendGateway` | agents/hermes/discord-facade.py:289-298 | a frame is appended to an open connection; without an event it has no number and the counter stays |
| `Gateway.GatewayPeer.Dispatch` | agents/hermes/discord-facade.py:300-302 | the counter goes up by one and the frame carries it |
| `Gateway.GatewayPeer.HandlePayload` | agents/hermes/discord-facade.py:223-249 | heartbeats are acknowledged, IDENTIFY and RESUME are accepted only with the placeholder token and answered by READY or RESUMED, others close the connection |
| `Gateway.DispatchToAll` | agents/hermes/discord-facade.py:298-307 | every identified, open peer hears the event once; if one closes before its turn, its counter goes up, nothing is sent to it, the broadcast ends there and every other peer was served or left alone |
| `Gateway.ReceivedIs` | agents/hermes/discord-facade.py:223-249 | the frame each payload is answered with, and what it does to the connection, its identification and its counter |
| `Gateway.ConnectedIs` | agents/hermes/discord-facade.py:201-209 | a connection starts with HELLO, unidentified |
| `Gateway.HeardFrames` | agents/hermes/discord-facade.py:289-307 | an identified client is sent one dispatch frame per broadcast, numbered on from its counter |
| `Gateway.HeardIsSent` | agents/hermes/discord-facade.py:300-307 | an identified client is sent every broadcast once and in order, and nothing else |
| `Gateway.StepKeepsGood` | agents/hermes/discord-facade.py:201-249 | every step of every peer, broadcast or delivery keeps the numbering invariant |
| `Gateway.FramesAreNumbered` | agents/hermes/discord-facade.py:201-249 | in every interleaving each peer's dispatch frames carry 1, 2, 3, ..., other frames carry no number, and none is sent before a matching IDENTIFY or RESUME |
| `Gateway.PeersAreTold` | agents/hermes/discord-facade.py:201-307 | in every interleaving a peer's dispatch frames are its READY and RESUMED answers and the events delivered to it, in order, and nothing else |
| `Gateway.BroadcastsReach` | agents/hermes/discord-facade.py:304-307 | in every interleaving each broadcast that began reaches the peers of its list in order, each once, until one of them had closed |
| `Polling.MessagePoller.DispatchReactionDeltas` | agents/hermes/discord-facade.py:478-498 | one event per difference in the counts of the emojis now present, up to a send that raises; `Broadcasts.ObservedInOrder` says which |
| `Polling.MessagePoller.ObserveMessage` | agents/hermes/discord-facade.py:373-384 | a new message is cached and created, a changed one cached and updated, reactions last; a raising send leaves the cache as it was at that broadcast |
| `Polling.MessagePoller.ObservePage` | agents/hermes/discord-facade.py:364-384 | the page's usable entries are observed from oldest to newest and their ids collected, up to a send that raises |
| `Polling.MessagePoller.DropMissing` | agents/hermes/discord-facade.py:388-396 | each vanished id leaves the cache, with one delete event, up to a send that raises |
| `Polling.MessagePoller.PollChannelMessages` | agents/hermes/discord-facade.py:357-397 | cache, known ids and broadcasts of one poll, heard by every peer; when a send raises, exactly the broadcasts before it went through, the cache keeps its changes and the known ids stay |
| `Broadcasts.NormalizedFields` | agents/hermes/discord-facade.py:439-453 | a normalised message has the fields that were sent, the ten defaults for missing ones, and counts |
| `Broadcasts.CountsAreLast` | agents/hermes/discord-facade.py:466-476 | every emoji with a key has one count, that of its last element |
| `Broadcasts.MessagesJoin` | agents/hermes/discord-facade.py:364-372 | entries are taken from the end of the page, without those that are no objects or have no id |
| `Broadcasts.ObservedInOrder` | agents/hermes/discord-facade.py:378-384 | for a cached message first an update, exactly if one of the six fields differs, and then one add for every count that rose and one remove for every count that fell, in the order of the emojis |
| `Broadcasts.ObserveAllSays` | agents/hermes/discord-facade.py:364-384 | exactly the creates, updates, adds and removes that some entry calls for, given the cache at its turn, are broadcast |
| `Broadcasts.PageSays` | agents/hermes/discord-facade.py:364-384 | on a page without repeated ids: given the cache before the poll |
| `Broadcasts.ObservedCounts` | agents/hermes/discord-facade.py:377-384 | afterwards the cache has the counts that were observed |
| `Broadcasts.GoneIs` | agents/hermes/discord-facade.py:386-388 | the ids deleted are those known and not on the page, in increasing order; a page of 25 or more deletes none |
| `Broadcasts.DeletesSay` | agents/hermes/discord-facade.py:388-396 | one delete for each, with the channel that was polled and the guild of the cached message if that is no false value |
| `Broadcasts.PollSays` | agents/hermes/discord-facade.py:357-397 | what a complete poll broadcasts: exactly what its entries call for, and those deletes |
| `Broadcasts.RunCounted` | agents/hermes/discord-facade.py:357-397 | in every run the cached counts have one entry per emoji |
| `Mirror.EventsFitIff` | agents/hermes/discord-facade.py:322-397 | in any run, shared messages and cuts included, in which no create or delete goes past the client, it knows the cached ids, and each event fits what it knows exactly when every poll deletes only cached messages |
| `Mirror.ClientIsCacheView` | agents/hermes/discord-facade.py:357-397 | in any run in which the client is served before every raising send, it and the cache agree on ids and compared fields |
| `Mirror.MemoryView` | agents/hermes/discord-facade.py:371-397 | after any poll, cut or not, the cache is what its own broadcasts say, the one that raised included |
| `Grammar.EventGrammar` | agents/hermes/discord-facade.py:357-397 | over every run without shared ids, full pages and harmless cuts included, creates and deletes of a message strictly alternate starting with a create, and updates and reactions come only between them |
| `Grammar.EventsInOrderIff` | agents/hermes/discord-facade.py:357-397 | with shared ids the order holds exactly when every poll deletes only cached messages |
| `Grammar.CutKeepsOrderIff` | agents/hermes/discord-facade.py:298-397 | a cut lets every later run keep the order exactly when the broadcast that raised was no delete and no create the client missed |
| `Grammar.CutDeleteComesTwice` | agents/hermes/discord-facade.py:386-397 | a send that raises during a delete makes the next poll delete the message again |
| `Grammar.SharedIdDeletedTwice` | agents/hermes/discord-facade.py:372-397 | a message reported by two channels is deleted twice |
| `Grammar.RunSound` | agents/hermes/discord-facade.py:357-397 | along such runs the cache, the known ids and what the client has been told agree |
| `LastPages.ClientShowsLastPage` | agents/hermes/discord-facade.py:357-397 | with pages under 25 entries and safe cuts, a client that applies the events in order holds exactly the ids of each last page that was not cut and agrees with it on the six compared fields |
| `LastPages.NextPagesShowIff` | agents/hermes/discord-facade.py:357-397 | from any state, every short page that may come next shows on the client exactly when it has what is cached of the channel and holds only ids known there |
| `LastPages.CutKeepsTouchIff` | agents/hermes/discord-facade.py:298-397 | a cut poll keeps that condition exactly when the creates heard are of known ids and an unserved create or update says what the client already has |
| `LastPages.CutShowsIff` | agents/hermes/discord-facade.py:298-397 | so the pages after a cut all show exactly when the cut is safe |
| `LastPages.CutCreateGoesStale` | agents/hermes/discord-facade.py:372-397 | a send that raises during a create leaves a served client with a message that is never deleted |
| `LastPages.UnservedCreateIsNeverHeard` | agents/hermes/discord-facade.py:372-397 | and a client that was not served never hears of the message |
| `LastPages.PageHeldIff` | agents/hermes/discord-facade.py:357-397 | from any state a page, full or not, leaves exactly its ids exactly when what else was held is known to the channel and the page is short, and the page's cached messages were held |
| `LastPages.LastPagesHeldIff` | agents/hermes/discord-facade.py:357-397 | in any run of complete polls, shared ids included, the client holds exactly the last pages' messages after every poll exactly when no short page drops an id seen elsewhere and no full page drops one that is not |
| `LastPages.FullPageGoesStale` | agents/hermes/discord-facade.py:386-397 | a full page of other messages leaves clients with one that is gone |
| `LastPages.SharedIdIsLost` | agents/hermes/discord-facade.py:372-397 | an empty page of one channel takes a shared message that is on another channel's last page |
| `LastPages.UnchangedPageIsSilent` | agents/hermes/discord-facade.py:357-397 | polling an unchanged page of distinct ids again changes nothing and broadcasts nothing |
| `YamlPrinter.ToYaml` | agents/hermes/config/yaml.ts:5-42 | the printed text is the text of the block lines, for every value and indentation |
| `YamlPrinter.FieldToYaml` | agents/hermes/config/yaml.ts:8-39 | the lines of one entry: null for null and undefined, `[]` and `{}` for empty ones, a block otherwise |
| `YamlPrinter.ItemToYaml` | agents/hermes/config/yaml.ts:16-25 | the lines of one item: nothing for null, a dash and a block for objects and arrays, a scalar otherwise |
| `YamlScalars.ScalarOfString` | agents/hermes/config/yaml.ts:44-52 | a quoted string reads back as itself; an unquoted one as what its spelling means, if it is a plain scalar |
| `YamlScalars.UnquoteJson` | agents/hermes/config/yaml.ts:45-50 | JSON quoting is undone by the escapes of double-quoted scalars |
| `YamlRoundTrip.PrintedReadsAsNorm` | agents/hermes/config/yaml.ts:5-52 | every printed object with plain keys reads back as its normal form, or not at all when a string is no scalar or a key at the top makes a document marker |
| `YamlRoundTrip.RoundTripIff` | agents/hermes/config/yaml.ts:5-52 | it reads back as the same tree exactly when it has entries, no undefined, no null, array or empty-object items, strings and numbers that mean themselves, and no key at the top that makes a document marker |
| `YamlRoundTrip.GuardedIsQuoted` | agents/hermes/config/yaml.ts:44-52 | exactly the empty strings, those with a YAML indicator other than a dash or a line feed, and those with white space at an edge are quoted |
| `YamlRoundTrip.NullItemIsLost` | agents/hermes/config/yaml.ts:17-25 | an array of one null reads back as null |
| `YamlRoundTrip.PlainStringsAreLost` | agents/hermes/config/yaml.ts:44-52 | an unquoted `true` becomes a boolean, and an unquoted string that starts like an item is not read |
| `YamlRoundTrip.DashesAndBlank` | agents/hermes/config/yaml.ts:8-39 | the key `--- a` needs no quotes and makes a document marker |
| `YamlRoundTrip.MarkerKeyIsLost` | agents/hermes/config/yaml.ts:8-39 | a key of three dashes or dots, a blank and more is not read back at the top, and is one level below |
| `Placeholders.MatchIsUnique` | nemoclaw-blueprint/scripts/slack-token-rewriter.js:50-51 | the pattern matches at most one length at a position, which ends with the run of word characters |
| `Placeholders.BoltPlaceholderIff` | nemoclaw-blueprint/scripts/slack-token-rewriter.js:50-51 | the strings of the pattern: xoxb or xapp, the fixed part, and capitals, digits and underscores that do not start with a digit |
| `Placeholders.SlackPlaceholderIff` | agents/hermes/decode-proxy.py:37-43 | the proxy's two strings |
| `Placeholders.FixedPart` | agents/hermes/decode-proxy.py:37-43 | the prefixes with the fixed part, written out |
| `Placeholders.ReplacesLeftmost` | nemoclaw-blueprint/scripts/slack-token-rewriter.js:50-58 | everything before the leftmost match is kept, the match becomes the canonical form of its own variable, and rewriting goes on after it |
| `Placeholders.RewriteIsIdempotent` | nemoclaw-blueprint/scripts/slack-token-rewriter.js:32-58 | rewriting twice equals rewriting once, for both dialects and any word characters that agree on ASCII |
| `Placeholders.RewriteIsClean` | nemoclaw-blueprint/scripts/slack-token-rewriter.js:32-58 | no placeholder is left anywhere, nor is one created across replacements |
| `Placeholders.FastPathIsExact` | nemoclaw-blueprint/scripts/slack-token-rewriter.js:52-57 | text without the fixed part is not changed, so skipping the pattern is exact |
| `Placeholders.BytesTaken` | nemoclaw-blueprint/scripts/slack-token-rewriter.js:50-58 | each replaced placeholder shortens the UTF-8 text by exactly five bytes |
| `Placeholders.RewriteEncodedIsIdempotent` | agents/hermes/decode-proxy.py:59-70 | rewriting bytes twice equals once, ill-formed ones included |
| `Placeholders.SkippedBytes` | agents/hermes/decode-proxy.py:61-62 | bytes without the fixed part are left alone by the rewriting of the text they encode |
| `Utf8.DecodeEncode` | agents/hermes/decode-proxy.py:63-70 | decoding undoes encoding |
| `Utf8.EncodeDecode` | agents/hermes/decode-proxy.py:63-70 | encoding undoes decoding of well-formed bytes |
| `Utf8Repair.RepairedWhole` | agents/hermes/decode-proxy.py:78 | decoding with replacement characters reads well-formed bytes as what they encode |
| `Utf8Repair.RepairedAscii` | agents/hermes/decode-proxy.py:78 | and any bytes with exactly their ASCII characters |
| `Boundaries.JoinedIff` | nemoclaw-blueprint/scripts/slack-token-rewriter.js:54-58 | pieces rewritten one by one make up the rewritten whole exactly when the placeholders of the whole are those of the pieces |
| `Boundaries.CutPlaceholder` | nemoclaw-blueprint/scripts/slack-token-rewriter.js:50-58 | a placeholder cut in two comes out rewritten if the cut is inside the variable's name, and unchanged otherwise; the two fixed names of the proxy never survive a cut |
| `SlackRewriter.RewriteStringFast` | nemoclaw-blueprint/scripts/slack-token-rewriter.js:54-58 | the skipping form equals the full rewriting |
| `SlackRewriter.RewriteHeaders` | nemoclaw-blueprint/scripts/slack-token-rewriter.js:60-72 | in place, even when headers share an array, every text under a key or in an array becomes its rewriting and has no placeholder left; all other values are the old ones |
| `SlackRewriter.RewriteEachTwice` | nemoclaw-blueprint/scripts/slack-token-rewriter.js:28-33 | rewriting a header's values again, as on a retry, changes nothing |
| `SlackRewriter.ClientRequest.AdjustContentLength` | nemoclaw-blueprint/scripts/slack-token-rewriter.js:83-98 | a numeric header moves by the difference while headers are unsent; everything else stays |
| `SlackRewriter.DecodedExactlyIff` | nemoclaw-blueprint/scripts/slack-token-rewriter.js:121-125 | the re-encoding test lets through exactly the well-formed bytes |
| `SlackRewriter.RewriteBuffer` | nemoclaw-blueprint/scripts/slack-token-rewriter.js:113-130 | well-formed bytes are rewritten as the text they encode, all others are kept |
| `SlackRewriter.ClientRequest.RewriteBodyChunk` | nemoclaw-blueprint/scripts/slack-token-rewriter.js:100-131 | the chunk comes out rewritten and Content-Length moves by its change in size while headers are unsent |
| `SlackRewriter.ClientRequest.Write` | nemoclaw-blueprint/scripts/slack-token-rewriter.js:142-154 | the wrapped write appends the rewritten chunk and sends the headers |
| `SlackRewriter.RunTracks` | nemoclaw-blueprint/scripts/slack-token-rewriter.js:83-171 | in every run Content-Length minus bytes written is what it would have been, plus what rewriting took from chunks written after the headers |
| `SlackRewriter.LengthKeptIff` | nemoclaw-blueprint/scripts/slack-token-rewriter.js:83-131 | a request with a correct Content-Length stays correct exactly when rewriting takes nothing from the chunks written after the headers, in any encoding |
| `SlackRewriter.LengthKeptIffClean` | nemoclaw-blueprint/scripts/slack-token-rewriter.js:83-131 | for bytes and UTF-8 text: exactly when none of those chunks holds a placeholder |
| `SlackRewriter.LatePlaceholderBreaksLength` | nemoclaw-blueprint/scripts/slack-token-rewriter.js:83-154 | a second chunk that is a placeholder leaves the length five too large |
| `SlackRewriter.NamesMakePlaceholders` | nemoclaw-blueprint/scripts/slack-token-rewriter.js:50-51 | such chunks are a prefix and the name of any variable |
| `SlackRewriter.BodyRewrittenIff` | nemoclaw-blueprint/scripts/slack-token-rewriter.js:100-171 | in every run of UTF-8 chunks the bytes sent are the rewriting of the bytes of the whole body exactly when that body has the placeholders of its chunks |
| `HeaderLines.RewriteKeepsLine` | agents/hermes/decode-proxy.py:124-131 | a header line rewritten is one header line, with its line feed, and not blank |
| `HeaderLines.ReadsBack` | agents/hermes/decode-proxy.py:124-145 | header lines and a blank one, written out, are read as themselves |
| `DecodeProxy.PyIntDecimal` | agents/hermes/decode-proxy.py:85-104 | the number written into a header is the number read from it |
| `DecodeProxy.ContentLengthIff` | agents/hermes/decode-proxy.py:87-88 | a line is a Content-Length line exactly when it starts with that name in any case and a colon |
| `DecodeProxy.PyIntSigned` | agents/hermes/decode-proxy.py:90 | a signed decimal between blanks is read as its number |
| `DecodeProxy.NaturalIff` | agents/hermes/decode-proxy.py:90 | unsigned numbers are exactly digits with single underscores between them |
| `DecodeProxy.RewriteBytes` | agents/hermes/decode-proxy.py:59-70 | the skipping form equals rewriting the encoded text |
| `DecodeProxy.ContentLength` | agents/hermes/decode-proxy.py:85-93 | the number of the first Content-Length line, or none |
| `DecodeProxy.WithContentLength` | agents/hermes/decode-proxy.py:96-108 | every Content-Length line states the new size and keeps its name and ending; other lines are kept |
| `DecodeProxy.ReadHeaders` | agents/hermes/decode-proxy.py:124-131 | all lines up to the blank one, rewritten, and the input after it |
| `DecodeProxy.HandleClient` | agents/hermes/decode-proxy.py:111-151 | the forwarded bytes after the request line and the input left to relay; nothing is forwarded when the body cannot be read |
| `DecodeProxy.ForwardIs` | agents/hermes/decode-proxy.py:124-145 | with n the first Content-Length: every line, the n bytes of the body and what follows them, lines and body rewritten and without a placeholder, the lengths replaced; nothing when the n bytes are not there |
| `DecodeProxy.LengthsAgreeIff` | agents/hermes/decode-proxy.py:133-145 | all forwarded Content-Length headers equal the forwarded body's size exactly when the first one is positive or all are 0 |
| `DecodeProxy.SecondLengthKept` | agents/hermes/decode-proxy.py:133-145 | a first length of 0 leaves a different second one in place |
| `DecodeProxy.UpstreamReadsBackIff` | agents/hermes/decode-proxy.py:124-152 | upstream reads exactly the forwarded header lines and, after them, the forwarded body and the relayed rest, exactly when the input does not end inside a header line |
| `DecodeProxy.ForwardIsIdempotentIff` | agents/hermes/decode-proxy.py:111-152 | a second proxy behind the first forwards the same bytes under exactly that condition |
| `DecodeProxy.ColonLineUnfinished` | agents/hermes/decode-proxy.py:124-152 | `a:b` without a line feed: upstream reads the line with another ending, and a second proxy adds one more |
| `RequestLine.UnquotedHas` | agents/hermes/decode-proxy.py:81 | a decoded target has a character that needs no hexadecimal digit exactly when the target had it, escaped or not |
| `RequestLine.RequestLineIsLineIff` | agents/hermes/decode-proxy.py:76-82 | the forwarded request line is one line exactly when its target escapes no line feed |
| `RequestLine.RequestKeepsEnding` | agents/hermes/decode-proxy.py:73-82 | the forwarded request line ends as the one that came in |
| `RequestLine.RequestReadsBackIff` | agents/hermes/decode-proxy.py:76-82 | upstream reads it as method, decoded and rewritten target, and version exactly when the target escapes neither a line feed nor a space |
| `RequestLine.EscapesSplitTheLine` | agents/hermes/decode-proxy.py:76-82 | with the target `%0A` two lines are forwarded, with `%20` the parts move |
| `RequestLine.ServeClient` | agents/hermes/decode-proxy.py:111-152 | the whole forwarded message: request line, header lines and body; nothing without a first line |
| `RequestLine.MessageReadsBackIff` | agents/hermes/decode-proxy.py:111-152 | upstream reads the forwarded request line, block and body as they were sent exactly when the target escapes no line feed and the input does not end inside a header line |
| `BraceScanner.SkipQuoted` | scripts/rcf_patch.py:18-27 | the position after the closing quote under the reference lexer, with no brace in between; none if the text ends first |
| `BraceScanner.FindMatchingBrace` | scripts/rcf_patch.py:30-59 | what the scan reports from any start, in terms of the reference lexer; every step advances |
| `BraceScanner.ScanIsExact` | scripts/rcf_patch.py:30-59 | from an open brace the result is exactly the brace that closes it under a lexer for three quote kinds and two comment kinds, and "closed before opened" never happens |
| `BraceScanner.Splice` | scripts/rcf_patch.py:97-100 | all text outside the match is kept |
| `ShellQuote.ReadQuote` | src/lib/runner.ts:255-257 | a quoted value is read as one field holding the value, whatever follows |
| `ShellQuote.RenderedLineReadsBack` | src/lib/runner.ts:181-193 | splitting the rendered command line by the POSIX quoting rules gives back the file and every argument |
| `WeakTypes.SearchIsReachability` | scripts/type-safety-hotspots.ts:442-626 | on every alias map, cyclic ones included, the search ends and says yes exactly when a weak type is reachable through children and alias expansions |
| `WeakTypes.SearchIsSound` | scripts/type-safety-hotspots.ts:543-626 | a yes comes with a route that expands no alias already seen |
| `WeakTypes.SearchIsComplete` | scripts/type-safety-hotspots.ts:543-626 | a route that avoids the seen aliases makes the answer yes |
| `WeakTypes.CutAtLast` | scripts/type-safety-hotspots.ts:543-567 | a route through an alias can be cut to expand it only once, so the path-local set loses nothing |
| `SourceVars.CollectProductionPathVars` | scripts/find-source-shape-tests.ts:211-238 | the loop ends with the least set that holds the seeds and is closed under derivation |
| `SourceVars.CollectSourceVars` | scripts/find-source-shape-tests.ts:266-299 | the same for source variables, and every source read is listed once, in order of declaration |
| `SourceVars.PathVarsAreDerivable` | scripts/find-source-shape-tests.ts:211-238 | a name is in the set exactly when a chain of derivations leads to it |
| `SourceVars.SourceVarsAreDerivable` | scripts/find-source-shape-tests.ts:266-299 | the same for source variables |
| `SourceVars.ReadsJoin` | scripts/find-source-shape-tests.ts:274-280 | the source reads are listed declaration by declaration |
| `SourceVars.OneRead` | scripts/find-source-shape-tests.ts:240-264 | a declaration is listed exactly when it reads a file whose path is no fixture and is or mentions a production path |
| `SourceVars.OrderIndependent` | scripts/find-source-shape-tests.ts:211-299 | both results depend on which declarations there are, not on their order |
| `Dotpath.ExtractDotpath` | src/lib/sandbox-config.ts:132-147 | what the keys lead to, through own objects and array indices; an inherited member where there is no own one; else undefined |
| `Dotpath.ValidateConfigDotpath` | src/lib/sandbox-config.ts:176-205 | accepted exactly when no segment is empty or reserved |
| `Dotpath.KeysAre` | src/lib/sandbox-config.ts:133 | the segments have no dot and make up the key |
| `Dotpath.NumericIff` | src/lib/sandbox-config.ts:228 | a segment is numeric exactly when it has digits and nothing else |
| `Dotpath.PrefixOfKey` | src/lib/sandbox-config.ts:230 | what a refusal names is a beginning of the key, with the segments up to the refused one |
| `Dotpath.FindNonObject` | src/lib/sandbox-config.ts:235-258 | none exactly when the write passes only objects or missing keys; else the first obstacle, named by its path |
| `Dotpath.FindClobberingAncestor` | src/lib/sandbox-config.ts:220-259 | refuses exactly numeric segments and non-object ancestors, and names one that is there |
| `Dotpath.DotpathLaws` | src/lib/sandbox-config.ts:132-170 | after both checks and for own properties: reading gives what was written, every path that is no prefix or extension reads as before, a second write wins, writing back what was read changes nothing, and the key stays writable |
| `Dotpath.InheritedIff` | src/lib/sandbox-config.ts:132-147 | a path leads to an inherited member exactly when its last segment names one that the own object before it lacks |
| `Dotpath.WriteBackIff` | src/lib/sandbox-config.ts:132-170 | writing back what a key leads to changes nothing exactly when that is an own property |
| `Dotpath.LookElsewhereIff` | src/lib/sandbox-config.ts:132-170 | every other path leads to the same exactly unless it ends in an inherited name of an object that the write put there |
| `Dotpath.ValueOfIsWritten` | src/lib/sandbox-config.ts:176-205 | valueOf is accepted, leads to the inherited member, and writing that back adds a property |
| `Dotpath.ArrayIsClobbered` | src/lib/sandbox-config.ts:149-170 | without the second check a write destroys array elements at other paths |
| `ConfigTree.ConfigObject.EnsureKey` | src/lib/sandbox-config.ts:149-158 | the existing object under the key, or a new empty one put there in place |
| `ConfigTree.WriteInto` | src/lib/sandbox-config.ts:160-170 | the write in place, through the objects on the way, leaves the tree holding what the write on values gives and other properties the same objects |
| `ConfigTree.SetDotpath` | src/lib/sandbox-config.ts:160-170 | in place, the whole operation including the ignored empty last segment |
| `PolicyMerge.ReadInFullIff` | src/lib/policies.ts:174-197 | the text is read in full exactly when it has no three dashes, is no error message, has a key line and parses to an object |
| `PolicyMerge.HeaderIsDropped` | src/lib/policies.ts:174-197 | behind a header that ends in the first three dashes the whole policy is read, whatever it contains |
| `PolicyMerge.NoPolicyIff` | src/lib/policies.ts:174-197 | exactly these are no policy: an empty text, one that begins with one of five words in any case, one without a line that starts with a key, and one that does not parse to an object |
| `PolicyMerge.IndicesAre` | src/lib/policies.ts:372 | the keys of preset entries that are an array or text are its indices |
| `PolicyMerge.NothingToMerge` | src/lib/policies.ts:264-266 | without entries the policy that was read comes out, or the empty one |
| `PolicyMerge.NothingToRemove` | src/lib/policies.ts:355-389 | the same for a removal that finds nothing to remove |
| `Policies.MergeOrderIndependent` | src/lib/policies.ts:263-340 | on documents, key-disjoint presets merge to the same sections and entries in any order, repeated or not, and to the same order of keys exactly when the new keys come in the same order |
| `Policies.TwoOrdersIff` | src/lib/policies.ts:263-317 | two key-disjoint presets give the same document, order included, both ways exactly when one of them adds no key |
| `Policies.MergeKeepsForm` | src/lib/policies.ts:300-316 | merging keeps every key but the indices in exactly one place, in the document and in its entries |
| `Policies.RemoveKeepsForm` | src/lib/policies.ts:394-399 | so does removing |
| `PolicyMerge.MergedSections` | src/lib/policies.ts:263-317 | what is printed has the sections read except one named `__proto__`, the preset winning on name clashes, other entries and a usable version; version first, entries last, all other keys in their places and new ones behind them; it reads back as that when printable |
| `PolicyMerge.MergeTextTwo` | src/lib/policies.ts:263-317 | merging one preset after another prints one merge of both, the later winning, when what is printed between is printable |
| `PolicyMerge.MergeTextTwoIff` | src/lib/policies.ts:263-317 | in general exactly when what is read in between agrees on everything the second preset does not bring |
| `PolicyMerge.MergeTextAgain` | src/lib/policies.ts:263-317 | merging the same preset into a printable result changes nothing |
| `PolicyMerge.MergeTextAgainIff` | src/lib/policies.ts:263-317 | in general exactly when what is read of the result agrees with it on the other sections, the version and the other entries |
| `PolicyMerge.MergeReproduces` | src/lib/policies.ts:263-317 | on documents, two policies merge with a preset to the same document exactly when they agree on what it does not bring |
| `PolicyMerge.DashesCutSections` | src/lib/policies.ts:174-178 | a key with three dashes costs the sections up to it and the version |
| `PolicyMerge.SecondMergeLoses` | src/lib/policies.ts:174-317 | a result with three dashes loses, when merged again, each section that is not read behind them |
| `PolicyMerge.DashedPresetMergedTwice` | src/lib/policies.ts:174-317 | so a preset with the key a---b loses a section the second time |
| `PolicyMerge.MergeAllTextIsOneMerge` | src/lib/policies.ts:319-340 | along printable documents a list of presets prints one merge of all their entries |
| `PolicyMerge.MergeAllTextIff` | src/lib/policies.ts:319-340 | in general exactly when what the last merge reads agrees with that on everything the last preset does not bring |
| `PolicyMerge.MergeTextOrder` | src/lib/policies.ts:319-340 | key-disjoint presets then print texts that read as the same sections and entries in any order, repeated or not; the texts are the same exactly when the new keys come in the same order |
| `PolicyMerge.TwoPresetsOrderIff` | src/lib/policies.ts:304-340 | two such presets print the same text both ways exactly when one of them adds no key |
| `PolicyMerge.NewPresetsOrder` | src/lib/policies.ts:304-340 | without a current policy the presets c and d print different texts in the two orders |
| `PolicyMerge.SameTextIff` | src/lib/policies.ts:263-317 | two merges print the same text exactly when what they read has, with the presets, the same sections, version and entries in the same order, and texts of the same content exactly when that holds in any order |
| `PolicyMerge.MergeTextOrderIff` | src/lib/policies.ts:319-340 | so two presets print the same, or the same content, both ways exactly when what is read in between merges so |
| `PolicyMerge.DashedPresetOrder` | src/lib/policies.ts:319-340 | the preset a---b and another print texts of different content in the two orders |
| `PolicyMerge.MergePresetNames` | src/lib/policies.ts:319-340 | every distinct name with entries is merged once in order, each result read as text by the next, and names with and without entries are reported |
| `PolicyMerge.RemoveTextAfterMerge` | src/lib/policies.ts:351-400 | removing a preset from the printable text it was merged into prints the original entries without its keys and every other section as merged, all in their places |
| `PolicyMerge.RemoveTextIff` | src/lib/policies.ts:351-400 | in general removing a nonempty preset prints the merged document without the preset's keys exactly when what is read of the merged text is that document but for those keys |
| `PolicyMerge.DashedPresetRemoved` | src/lib/policies.ts:351-400 | removing the preset a---b from the text it was merged into leaves `b: {}` |
| `PolicyMerge.RemovedIsNotReported` | src/lib/policies.ts:351-867 | after a removal behind a header the gateway reports exactly the presets it reported before that share no key with the removed one |
| `PolicyMerge.GetGatewayPresets` | src/lib/policies.ts:811-867 | exactly the listed presets all of whose keys the gateway has, or null without a usable answer |
| `PolicyMerge.ReportedExactly` | src/lib/policies.ts:841-866 | a listed preset is reported exactly when it has keys and the gateway has them all |
| `PolicyMerge.MergedAreReported` | src/lib/policies.ts:174-866 | a gateway that answers with a header and the text merged along printable documents reports every nonempty merged preset |
| `PolicyMerge.MergedReportedIff` | src/lib/policies.ts:174-866 | in general it reports a preset exactly when the last merge read or brought all its keys |
| `PolicyMerge.DashedPresetNotReported` | src/lib/policies.ts:174-866 | so not the preset a---b when another was merged after it |
| `PolicyText.Splice` | src/lib/policies.ts:218-238 | the entries go in once, before the first top-level line after the first section or at the end, and all lines stay |
| `PolicyText.TextBasedMerge` | src/lib/policies.ts:216-246 | the merged text, with a version line when there was none |
| `PolicyText.StartsSectionIff` | src/lib/policies.ts:221-225 | a line opens the section exactly when it starts with its name, perhaps white space, and a colon |
| `PolicyText.HasSectionIff` | src/lib/policies.ts:221 | the text passes the test exactly when that stands at its start or after a line terminator |
| `PolicyText.TopLevelIff` | src/lib/policies.ts:230 | a line is top-level exactly when it does not start with white space and has a colon behind its first character |
| `PolicyText.WithVersionIs` | src/lib/policies.ts:244 | a version line is put in front exactly of a text that does not begin with a version, white space aside |
| `PolicyText.SectionAdded` | src/lib/policies.ts:241-244 | a policy without the section loses the white space at its end and gets the section and the entries |
| `PolicyText.NoPolicyMerged` | src/lib/policies.ts:217-219 | without a policy the version, the section and the entries |
| `PolicyText.SplicedIff` | src/lib/policies.ts:216-246 | entries are spliced into the original lines exactly once exactly when a line starts the section; otherwise they are lost |
| `PolicyText.EntriesLostAfterReturn` | src/lib/policies.ts:216-246 | a text whose section follows a bare carriage return loses the entries |
| `CreateStream.SandboxStream.PrintProgressLine` | src/lib/sandbox-create-stream.ts:136-142 | a line equal to the last printed one is not printed |
| `CreateStream.SandboxStream.SetPhase` | src/lib/sandbox-create-stream.ts:148-166 | only a new phase prints its line |
| `CreateStream.SandboxStream.FlushLine` | src/lib/sandbox-create-stream.ts:168-186 | an empty line is dropped, another is kept, may change the phase and is shown if it is progress |
| `CreateStream.SandboxStream.OnChunk` | src/lib/sandbox-create-stream.ts:192-197 | complete lines are flushed and the rest is carried over |
| `CreateStream.SandboxStream.Finish` | src/lib/sandbox-create-stream.ts:199-211 | the first call flushes and resolves; later ones do nothing |
| `CreateStream.SandboxStream.OnReadyTimer` | src/lib/sandbox-create-stream.ts:226-256 | a ready sandbox settles with forced readiness; any other answer changes nothing |
| `CreateStream.SandboxStream.OnHeartbeat` | src/lib/sandbox-create-stream.ts:258-284 | a silent phase prints its heartbeat |
| `CreateStream.SandboxStream.OnError` | src/lib/sandbox-create-stream.ts:287-294 | a failed start settles with status 1 and the error's text |
| `CreateStream.SandboxStream.OnClose` | src/lib/sandbox-create-stream.ts:296-311 | a failing exit code with a ready sandbox settles as forced ready |
| `CreateStream.RunSound` | src/lib/sandbox-create-stream.ts:129-311 | in every interleaving at most one resolution, forced readiness means status 0, and no two adjacent logged lines are equal |
| `CreateStream.SettledForGood` | src/lib/sandbox-create-stream.ts:199-211 | nothing that happens after the resolution changes it |
| `CreateStream.OutputIgnoresChunks` | src/lib/sandbox-create-stream.ts:168-211 | a run ended by close resolves once, whatever timers fired and however it was cut, with one line for every piece of the text that is not white space, in order, without returns and without white space at its end |
| `CreateStream.ChunkIndependence` | src/lib/sandbox-create-stream.ts:168-211 | two ways to cut the same text resolve alike and log the same lines |
| `StreamDisplay.ReadySettles` | src/lib/sandbox-create-stream.ts:226-256 | a run that a readiness check ends resolves once with status 0, forced readiness and the detail among its lines |
| `StreamDisplay.ErrorSettles` | src/lib/sandbox-create-stream.ts:287-294 | a run that an error ends resolves once with status 1 and the reason among its lines |
| `StreamDisplay.RunningShows` | src/lib/sandbox-create-stream.ts:129-197 | while it runs: the phase is that of the last line with one, every visible line is logged, and besides these only announcements and heartbeats |
| `StreamDisplay.LineSays` | src/lib/sandbox-create-stream.ts:136-186 | one line: a new phase is announced, a visible line is printed last and counts as progress, any other shows nothing |
| `StreamDisplay.DisplayFits` | src/lib/sandbox-create-stream.ts:124-134 | a line is shown whole if it has room, else cut to its room with three dots |
| `StreamDisplay.AnnouncementBegins` | src/lib/sandbox-create-stream.ts:153-164 | each phase is announced by what is being done |
| `StreamDisplay.HeartbeatGoesOn` | src/lib/sandbox-create-stream.ts:268-277 | and its heartbeats say that this goes on, and for how many seconds |
| `StreamDisplay.HeartbeatSays` | src/lib/sandbox-create-stream.ts:258-284 | a heartbeat is shown exactly after enough silence, before any settlement, when the phase and quarter of a minute had none and the line is not the last one |
| `StreamDisplay.OneHeartbeat` | src/lib/sandbox-create-stream.ts:258-284 | no second one in that quarter of a minute while the phase stays |
| `StreamDisplay.HeartbeatKept` | src/lib/sandbox-create-stream.ts:148-186 | a line without a new phase leaves the last heartbeat as it was |
| `StreamDisplay.ElapsedIs` | src/lib/sandbox-create-stream.ts:144-146 | whole seconds since the start, none before it |
| `StreamDisplay.LastOutput` | src/lib/sandbox-create-stream.ts:168-172 | silence is counted from the last line that is not all white space |
| `StreamBytes.ReadWholeIff` | src/lib/sandbox-create-stream.ts:192-197 | chunks of bytes are read as the text they encode exactly when none is cut inside a character |
| `StreamBytes.ByteChunkIndependence` | src/lib/sandbox-create-stream.ts:192-211 | two ways to cut the same bytes between characters resolve alike and log the same lines |
| `StreamBytes.CheckMarkCut` | src/lib/sandbox-create-stream.ts:192-197 | a check mark cut after its first byte is not read as one |
| `SessionCache.SessionRuntimeCache.EvictCache` | nemoclaw/src/runtime-context.ts:317-335 | expired entries go, then the oldest beyond 100 |
| `SessionCache.SessionRuntimeCache.GetCachedRuntimeInjection` | nemoclaw/src/runtime-context.ts:408-438 | one uninterrupted call: null on a fresh equal key, nothing written on a failed load, else the entry is written and the kind of text follows the previous one |
| `SessionCache.SessionRuntimeCache.Check` | nemoclaw/src/runtime-context.ts:422-427 | the part of a call before the policy load |
| `SessionCache.SessionRuntimeCache.Remember` | nemoclaw/src/runtime-context.ts:430-433 | the part of a call after the policy load |
| `SessionCache.SerializeIsExact` | nemoclaw/src/runtime-context.ts:279-287 | a key stands for one choice of fields exactly when none of them contains a bar |
| `SessionCache.BarsCollide` | nemoclaw/src/runtime-context.ts:279-287 | two fingerprints that differ in where a bar stands have one key |
| `SessionCache.NewEntryStays` | nemoclaw/src/runtime-context.ts:317-335 | the newly written entry is never the one evicted |
| `SessionCache.RunIsGood` | nemoclaw/src/runtime-context.ts:317-438 | in every interleaving of calls the cache holds at most 100 entries, each the latest write of its session |
| `SessionCache.CallsAreSettled` | nemoclaw/src/runtime-context.ts:408-438 | in every interleaving each call not answered with null waits, was written or failed; what waits was begun, and what is written belongs to a load |
| `SessionCache.NullOnlyWhenFresh` | nemoclaw/src/runtime-context.ts:408-438 | null only when the session's latest write came from a loaded policy with the same key at most one hour earlier |
| `SessionCache.WritesAreKept` | nemoclaw/src/runtime-context.ts:408-438 | a write that is not yet an hour old is kept, and a failed load changes nothing |
| `SessionCache.NewestAreKept` | nemoclaw/src/runtime-context.ts:317-438 | in every interleaving a call finds as many sessions as were written in the last hour, up to a hundred, and none older than one it does not find |
| `SessionCache.NullIsExact` | nemoclaw/src/runtime-context.ts:317-438 | null only if the session's latest write is fresh and equal and fewer than a hundred sessions were written at a later time; always if fewer than a hundred others were written at that time or later; exactly under the first condition when no session shares its time |
| `SessionCache.TieForgets` | nemoclaw/src/runtime-context.ts:317-438 | of more than a hundred sessions written at one time one is forgotten, though none was written later |
| `Overlaps.CompareHashes` | src/lib/messaging-conflict.ts:76-120 | a common hash is a match, else a missing one leaves it unknown, else no conflict |
| `Overlaps.FindAllOverlaps` | src/lib/messaging-conflict.ts:192-221 | every pair of each channel's sandboxes in order, with its reason |
| `Overlaps.OverlapsAreExact` | src/lib/messaging-conflict.ts:99-221 | with distinct names and no repeated channels, a pair is listed for a channel exactly when both store it and share a token of it, as a matching one, or share none and lack one, as an unknown one |
| `Overlaps.OverlapsListedOnceIff` | src/lib/messaging-conflict.ts:192-221 | with distinct names, pairs are listed at most once per channel and no sandbox with itself exactly when no sandbox lists a channel twice |
| `Overlaps.RepeatedChannelOverlapsItself` | src/lib/messaging-conflict.ts:192-221 | a sandbox that lists a channel twice overlaps with itself there, whatever keys the channel has |
| `Overlaps.PairReasonSymmetric` | src/lib/messaging-conflict.ts:100-120 | the reason does not depend on the order of the pair |
| `Overlaps.FindChannelConflicts` | src/lib/messaging-conflict.ts:167-190 | the conflicts of every request with every other sandbox, in order |
| `Overlaps.ConflictsAreExact` | src/lib/messaging-conflict.ts:76-190 | a conflict is listed for a request exactly with a sandbox of another name that stores the channel, with the reason that the tokens of the channel, or else of the request, give |
| `Overlaps.ConflictsAgreeWithOverlaps` | src/lib/messaging-conflict.ts:167-221 | asked with one sandbox's own hashes, the conflict search reports the same partners and reasons |
| `ChannelConfig.Environment.ReadConfig` | src/lib/messaging-channel-config.ts:68-77 | exactly the known variables with a usable value, normalised |
| `ChannelConfig.Environment.Hydrate` | src/lib/messaging-channel-config.ts:79-98 | the environment's usable values win, stored ones fill the rest and only those are written |
| `ChannelConfig.NormalIs` | src/lib/messaging-channel-config.ts:27-44 | a usable value is the text of a known variable without returns and without white space at its edges, 0 or 1 for a flag; every other is unusable |
| `ChannelConfig.HydratesEach` | src/lib/messaging-channel-config.ts:79-98 | per variable: what is taken and what is written |
| `ChannelConfig.NormalTwice` | src/lib/messaging-channel-config.ts:27-44 | a normalised value normalises to itself |
| `ChannelConfig.HydrateThenRead` | src/lib/messaging-channel-config.ts:68-98 | reading the environment afterwards gives what hydration returned, and hydrating again returns the same and changes nothing |
| `SetupEffects.ConfigBuilder.Apply` | scripts/generate-openclaw-config.py:279-299 | one setup succeeds exactly when its values equal the present ones in Python's sense and its plugin ids are new; its values overwrite and its plugins are added |
| `SetupEffects.ConfigBuilder.ApplyAll` | scripts/generate-openclaw-config.py:372-377 | the setups one after the other, stopping at the first failure |
| `SetupEffects.SucceedsIff` | scripts/generate-openclaw-config.py:279-377 | the build succeeds exactly when no two values for a key differ in Python's sense and no plugin id comes twice, and then has all values |
| `SetupEffects.OrderDoesNotMatter` | scripts/generate-openclaw-config.py:279-377 | success, the compat map up to Python's equality and the collection of plugins do not depend on the order of the setups |
| `SetupEffects.LastIsWritten` | scripts/generate-openclaw-config.py:279-299 | for each key the value of the last setup that gives one is written, or the initial one if none does |
| `SetupEffects.WrittenIff` | scripts/generate-openclaw-config.py:279-377 | the written map does not depend on the order exactly when all values given for each key are identical |
| `SetupEffects.TrueAndOne` | scripts/generate-openclaw-config.py:279-299 | true and 1 for one key: both orders succeed and write different values |
| `PythonJson.PyEqTransitive` | scripts/generate-openclaw-config.py:284 | Python's equality on decoded JSON is transitive across booleans, integers, floats and nested values |
| `Headings.NormalizeHeadingLevels` | scripts/docs-to-skills.py:107-143 | the three passes together give the repaired text |
| `Headings.LevelIff` | scripts/docs-to-skills.py:113-121 | a line is a heading of level n exactly when it starts with n and at most six # and white space follows |
| `Headings.RepairedIsGreatest` | scripts/docs-to-skills.py:107-143 | the repaired levels start at 1 or less, never rise by more than one, never exceed the original and are the greatest such |
| `Headings.RepairedLineIs` | scripts/docs-to-skills.py:107-143 | other lines are unchanged and headings keep their text |
| `Headings.RepairedHeadingLevels` | scripts/docs-to-skills.py:107-143 | the headings of the repaired page have exactly the repaired levels |
| `Headings.NormalizedTextIsBest` | scripts/docs-to-skills.py:107-143 | all of that for whole texts, and normalising twice equals once |

## Left out

- Polling.MessagePoller.PollChannelMessages: polls run one after the other, as in the poll loop; connects and disconnects in between are steps of `Gateway`, and within a poll a peer can only close.
- PolicyMerge.MergedSections: the YAML library is a pair of functions, and what it promises is a hypothesis on the documents at hand; the deletion in place in a removal is a new document.
- JSON's NaN, and the order of keys in the written configuration, which follows the setups.
- Thread polling, application commands, reaction totals of emojis that vanish, READY data, and Discord ids and JSON values beyond the compared fields, which are taken as text.
- Lone surrogates and UTF-16 lengths: texts are sequences of Unicode characters.
- Values other than JSON ones in the printer (functions, big integers); YAML 1.1 spellings such as `yes`; multi-line scalars, comments, anchors and flow collections in the reader, which reads nothing then.
- Duplicate keys, and in the YAML printer the reordering of number-like keys in JavaScript objects: its entries are taken in the order given. In dotted keys objects are maps without an order.
- Node's own request: its first write or flush is taken to send the headers, after which setting one is refused. Requests without header accessors, and `rewriteOptions`, which is `rewriteString` on one field and `rewriteHeaders` on another.
- SlackRewriter.BodyRewrittenIff: is about chunks that are UTF-8 text or well-formed bytes; text in another encoding, such as hex or base64, is rewritten before it is encoded, and a buffer cut inside a character is sent unchanged (`SlackRewriter.RewriteBuffer`).
- SessionCache.NullIsExact: of sessions that share a clock reading the place in the Map decides, which depends on what was evicted before; each eviction states it (`SessionCache.SessionRuntimeCache.EvictCache`).
- Read time-outs of the decode proxy, limits on line length and on the digits of a number.
- The `Record<string, ...>` special case of the weak-type search, which starts with an empty set again.
- How often functions and files are charged with a finding in `analyzeFile`.
- The regular expressions that classify names, paths and progress lines: they are predicates given from outside.
- ConfigTree.WriteInto: the loop over the keys is a recursion, so that each object's share of the tree can be updated on the way back; arrays inside the tree are values, because writes never enter them.
- The inherited `__proto__`, which is an object and not a function, when a key is read without validation; the redaction and address pinning of configuration values.
- The terminal's width changing during a stream, and more than one clock reading per event.
- `parseLabeledLine`, session key selection and the texts of injections.
- `backfillMessagingChannels` and registry recovery: their claims are about stores that are not part of this model and would be easy.
- `partition_skill_pages`: comprehensions and a sort.
- Matching of model-specific setups to a model, and manifest validation.
