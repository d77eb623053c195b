# Collector node submission pipeline, in Dafny

This project models one run of the Orcfax collector node (`src/collector_node/collector_node.py`).
The run does the following:

- It waits a random stagger of 1 to 15 seconds.
- It splits the configured feeds into CEX labels and DEX labels. A CEX label has its first `-` turned into `/`.
- It gathers the DEX batch before connecting. The pair table is filtered by requested name, each pair goes through `check_tokens_pair`, and each answer is wrapped with the node id and timestamp.
- It builds the validator endpoint `VALIDATOR_URI/<node_id>/` and uses TLS exactly when that string starts with `wss://`.
- Over one websocket connection, it sends the non-empty result of each CEX label, in a random order of the labels. It then sends the DEX batch, only when the DEX modules are installed.

Each message goes through `send_to_ws`, which works as follows:

- It reads three log fields. A message without them raises before anything is sent.
- It signs the message and sends it.
- It waits up to 10 seconds for whatever the validator says next. A reply containing `ERROR`, or a timeout, is only logged. The wait is abandoned, not the message, so a late answer to one message is read by the wait after the next one.
- An abnormal close (`ConnectionClosedError`) ends the loop. A clean close (`ConnectionClosedOK`) escapes the run like any other exception, and is modelled as `OtherFailure`.

Everything the run takes from outside is an input:

- the price-fetch subprocess, given as its outcome per label;
- `check_tokens_pair`;
- the connection attempt;
- the outcome of the wait that follows the `k`-th send;
- `sign_with_key`;
- the random choices.

Modules, one file each:

- `Wrappers`, `JsonValue`: `Option`, and decoded JSON values with Python truthiness and indexing.
- `Feeds`: the `FeedSpec` record, the label rewrite, and the partition loop.
- `DexFeeds`: pair selection, `retrieve_cnt`, `fetch_dex_feeds`, `collect_dex`.
- `CexFeeds`: `fetch_cex_data` and the random permutation.
- `Transport`: reply classification, the endpoint and the TLS decision, and the validator socket as a class with a log of sent payloads.
- `Submission`: the send loop.
  - `Drive` and `Run` are the specification: what the loop does with a sequence of items, given the outcomes of the waits.
  - `Sent` is the payloads the loop hands over.
  - `SendCex`, `SendDex` and `SubmitAll` are the loops themselves, on the socket. Each is proved to leave in the socket's log exactly what the specification sends.
- `Collector`: `Expected` is the whole run as a function of its inputs and the CEX visiting order. `FetchAndSend` is the run, proved equal to it; the connection it opens is closed on every way out of the loop. The lemmas state what a run promises.

## Model

| member | source | states |
|---|---|---|
| JsonValue.Truthy | src/collector_node/collector_node.py:189 | Python truthiness, as used by `not res` here and at lines 133 and 295: null, false, zero and empty values are falsy |
| JsonValue.Field | src/collector_node/collector_node.py:213-215 | indexing gives a value exactly when the value is a dict holding the key, and that value is the entry; where Python raises it gives None |
| Feeds.FirstDash | src/collector_node/collector_node.py:254 | the index found holds a dash and no dash occurs before it |
| Feeds.ReplaceFirstDash | src/collector_node/collector_node.py:254 | the rewrite keeps the length, and leaves a label without a dash unchanged |
| Feeds.ReplaceFirstDashSplits | src/collector_node/collector_node.py:254 | only the first dash changes, into a slash; the text before and after it is kept |
| Feeds.ReplaceFirstDashExample | src/collector_node/collector_node.py:254 | `A-B-C` becomes `A/B-C` |
| Feeds.SubmittedLabel | src/collector_node/collector_node.py:253-257 | the label a feed contributes: a CEX feed's label with its first dash rewritten, any other feed's label unchanged; `CexLabelPosition` and `DexLabelPosition` place it in its group |
| Feeds.LabelsOf | src/collector_node/collector_node.py:252-257 | reference definition of a group: the labels of the feeds of one source, in feed order, CEX labels rewritten |
| Feeds.PartitionFeeds | src/collector_node/collector_node.py:249-257 | the loop builds the CEX list from the CEX feeds' rewritten labels and the DEX list from the DEX feeds' labels, each in feed order |
| Feeds.LabelsOfAppend | src/collector_node/collector_node.py:252-257 | partitioning a concatenation concatenates the groups, and the counts add up |
| Feeds.LabelsOfLength | src/collector_node/collector_node.py:252-257 | each group holds exactly one label per feed of its source |
| Feeds.PartitionPosition | src/collector_node/collector_node.py:252-257 | a feed's label sits in its group at the position given by the number of earlier feeds of the same source |
| Feeds.CexLabelPosition | src/collector_node/collector_node.py:253-255 | each CEX feed contributes its label with the first dash rewritten, in order |
| Feeds.DexLabelPosition | src/collector_node/collector_node.py:256-257 | each DEX feed contributes its label unchanged, in order |
| Feeds.RemoveOtherSource | src/collector_node/collector_node.py:252-257 | a feed of another source has no effect on a group |
| Feeds.OtherSourceDropped | src/collector_node/collector_node.py:252-257 | a feed that is neither `cex` nor `dex` appears in neither list |
| DexFeeds.Selected | src/collector_node/collector_node.py:143-147 | reference definition of the selection: the table rows whose name is requested, in table order |
| DexFeeds.SelectPairs | src/collector_node/collector_node.py:143-147 | the loop keeps the table rows whose name is requested, in table order |
| DexFeeds.SelectedMembership | src/collector_node/collector_node.py:144-147 | a row is selected exactly when it is in the table and its name is requested |
| DexFeeds.SelectedIsSubsequence | src/collector_node/collector_node.py:144-147 | the selection is a subsequence of the table: table order, each row at most once |
| DexFeeds.SelectedIgnoresRequestOrder | src/collector_node/collector_node.py:144-147 | request order and repeated requests do not change the selection |
| DexFeeds.Wrapped | src/collector_node/collector_node.py:121-136 | reference definition of the batch: one wrapper per pair, in pair order |
| DexFeeds.Wrap | src/collector_node/collector_node.py:128-132 | the wrapper is truthy and holds the check's message, the node id and the timestamp |
| DexFeeds.RetrieveCnt | src/collector_node/collector_node.py:121-136 | one wrapped message per pair, in pair order, carrying the node id; the emptiness test never skips |
| DexFeeds.FetchDexFeeds | src/collector_node/collector_node.py:140-151 | the batch is the wrapping of the selected rows |
| DexFeeds.CollectDex | src/collector_node/collector_node.py:234-241 | with the DEX path disabled nothing is queried and the batch is empty; otherwise the batch of `fetch_dex_feeds` |
| CexFeeds.FetchCexData | src/collector_node/collector_node.py:154-178 | a failed process or output that is not JSON gives `{}`; a dict gives the label's entry, or null; any other decoded value raises |
| CexFeeds.Sample | src/collector_node/collector_node.py:186 | the visiting order is a permutation of the CEX labels |
| Transport.Contains | src/collector_node/collector_node.py:225 | `"ERROR" in msg` as a recursive search; `ContainsIffOccurs` proves it is substring search |
| Transport.ContainsGivesOccurrence | src/collector_node/collector_node.py:225 | a substring found by the search occurs at some position |
| Transport.OccurrenceGivesContains | src/collector_node/collector_node.py:225 | a substring at any position is found by the search |
| Transport.ContainsIffOccurs | src/collector_node/collector_node.py:225 | `sub in s` holds exactly when `sub` is the slice of `s` at some position |
| Transport.Classify | src/collector_node/collector_node.py:221-231 | a reply or a timeout lets the loop go on; an abnormal close is reported as such; any other failure, a clean close included, raises |
| Transport.RejectedIffErrorMarker | src/collector_node/collector_node.py:225-227 | a reply is treated as an error exactly when `ERROR` occurs in its text |
| Transport.MessageHasLogFields | src/collector_node/collector_node.py:213-215 | the inner message is a dict holding `timestamp`, `feed`, and an `identity` dict holding `node_id` |
| Transport.HasLogFields | src/collector_node/collector_node.py:213-215 | the three lookups succeed exactly when the data is a dict whose `message` entry has the log fields; otherwise they raise before anything is signed or sent |
| Transport.Endpoint | src/collector_node/collector_node.py:265-266 | the endpoint is the base, a slash, the node id and a trailing slash |
| Transport.EndpointIdentifiesNode | src/collector_node/collector_node.py:265-266 | for one base, different node ids give different endpoints |
| Transport.UsesTls | src/collector_node/collector_node.py:270 | TLS is used exactly when the endpoint starts with `wss://` |
| Transport.TlsDecision | src/collector_node/collector_node.py:269-272 | TLS is used exactly when the endpoint starts with `wss://`, stated in terms of the base and the node id |
| Transport.ValidatorSocket.constructor | src/collector_node/collector_node.py:274-279 | a new connection is open and has sent nothing |
| Transport.ValidatorSocket.Send | src/collector_node/collector_node.py:220-224 | the payload is appended to the log; the outcome is that of the wait following this send; an abnormal close closes the socket |
| Transport.ValidatorSocket.Close | src/collector_node/collector_node.py:274-279 | leaving the connection block closes it and sends nothing |
| Transport.SendToWs | src/collector_node/collector_node.py:210-231 | a message with its log fields is sent once, signed, and the outcome of the wait that follows classified; one without them is not sent and raises |
| Submission.ValueStep | src/collector_node/collector_node.py:189-193 | a falsy value is skipped; a truthy one is sent when it has the log fields and raises otherwise |
| Submission.CexStep | src/collector_node/collector_node.py:186-193 | a CEX label is sent exactly when the collector's dict holds a truthy entry with the log fields; a non-dict output raises |
| Submission.CexSteps | src/collector_node/collector_node.py:186-193 | the generator gives one item per label, in visiting order |
| Submission.DexSteps | src/collector_node/collector_node.py:293-298 | the DEX loop gives one item per batch entry, in batch order |
| Submission.AllSteps | src/collector_node/collector_node.py:282-298 | the items the send loop visits: the CEX items always, then the DEX items only when the DEX path is enabled, since otherwise the early `return` at lines 288-292 skips them; `ItemsSplit` and `CntDisabledSendsOnlyCex` rest on it |
| Submission.Head | src/collector_node/collector_node.py:282-300 | one item: a skipped item sends nothing and goes on; a raising item sends nothing and escapes; a sent item goes on after a reply or timeout, is lost on an abnormal close and escapes on any other failure |
| Submission.Drive | src/collector_node/collector_node.py:282-300 | the loop over the first `n` items: each item in turn while the previous ones went on, counting sends to index the outcomes of the waits |
| Submission.Run | src/collector_node/collector_node.py:282-300 | the loop over all items |
| Submission.HeadFacts | src/collector_node/collector_node.py:282-300 | one item is visited once and sent at most once; the loop goes on exactly when it is skipped or the wait after it ends in a reply or timeout |
| Submission.Signed | src/collector_node/collector_node.py:282-298 | there is one signed payload per value to send |
| Submission.Sent | src/collector_node/collector_node.py:282-300 | the loop hands over as many payloads as it sent |
| Submission.DriveFollowsItems | src/collector_node/collector_node.py:282-300 | the loop sends at most the values there are and visits each item at most once; if it runs out, it sent all of them |
| Submission.StopsLater | src/collector_node/collector_node.py:299-300 | once the loop has stopped, later items change nothing |
| Submission.SignedGrows | src/collector_node/collector_node.py:282-298 | payloads of earlier items come first |
| Submission.DriveAnswered | src/collector_node/collector_node.py:221-231 | in a loop that ran out, every wait after a send ended in a reply or a timeout |
| Submission.DriveStopsOnLast | src/collector_node/collector_node.py:221-231 | every wait but the one after the last send ended in a reply or a timeout |
| Submission.DriveLostOnLast | src/collector_node/collector_node.py:299-300 | a lost connection is the outcome of the wait after the last send |
| Submission.HeadLost | src/collector_node/collector_node.py:299-300 | an item that loses the connection was sent and found the connection closed |
| Submission.DriveSendsAll | src/collector_node/collector_node.py:221-231 | with no raising item and only replies and timeouts, every value is sent and the items run out |
| Submission.DrivePrefix | src/collector_node/collector_node.py:282-298 | the loop over a prefix of the items does not depend on what follows |
| Submission.SignedPrefix | src/collector_node/collector_node.py:282-298 | the payloads of a prefix do not depend on what follows |
| Submission.SignedAppend | src/collector_node/collector_node.py:282-298 | the payloads of the CEX items then the DEX items are those of each group, concatenated |
| Submission.StopsWithin | src/collector_node/collector_node.py:282-300 | once the loop stops inside the first group, nothing of the second is visited or sent |
| Submission.DriveExhaustedClean | src/collector_node/collector_node.py:282-300 | a loop that ran out met no raising item |
| Submission.StepAfterFull | src/collector_node/collector_node.py:282-298 | after running out of the earlier items, the loop visits the next item and sends its value if it has one |
| Submission.DriveVisits | src/collector_node/collector_node.py:282-300 | the number sent is the number of values among the visited items |
| Submission.SentVisited | src/collector_node/collector_node.py:282-300 | the payloads sent are exactly the signed values of the visited items, each once and in order, with nothing after the stop |
| Submission.CleanSuffix | src/collector_node/collector_node.py:282-298 | no raising item overall means no raising DEX item |
| Submission.SentInItemOrder | src/collector_node/collector_node.py:282-298 | what is sent begins the CEX payloads followed by the DEX payloads |
| Submission.SendsEverything | src/collector_node/collector_node.py:282-298 | with no raising item and only replies and timeouts, every item is visited and every CEX then DEX payload is sent |
| Submission.SentAll | src/collector_node/collector_node.py:282-298 | a loop that sent every value sent all the signed payloads |
| Submission.GoesPast | src/collector_node/collector_node.py:282-298 | an item that is skipped, or sent and followed by a reply or timeout, lets the loop run out of it too |
| Submission.StopsAtItem | src/collector_node/collector_node.py:299-300 | an item that stops the loop decides how it ends; the payloads sent are those up to that item |
| Submission.AtQuietItem | src/collector_node/collector_node.py:186-193 | a skipped item sends nothing and the loop goes on; a raising one ends the loop there |
| Submission.Answered | src/collector_node/collector_node.py:221-231 | a sent item followed by a reply or a timeout lets the loop go on |
| Submission.Unanswered | src/collector_node/collector_node.py:299-300 | a sent item followed by an abnormal close or another failure ends the loop, after sending it |
| Submission.AfterSend | src/collector_node/collector_node.py:286 | one `send_to_ws` call extends the log by the item's payload and decides whether the loop goes on |
| Submission.FullReached | src/collector_node/collector_node.py:282-300 | a loop that ran out of a prefix visited and sent at least that prefix |
| Submission.SendCex | src/collector_node/collector_node.py:282-287 | the CEX loop leaves in the log exactly what the loop specification sends; it runs out of the CEX items or ends the whole loop; the socket stays open unless the connection was lost |
| Submission.SendDex | src/collector_node/collector_node.py:293-298 | the DEX loop, run after the CEX items, completes the log to what the specification sends, ends as `Run` does, and leaves the socket open unless the connection was lost |
| Submission.SubmitAll | src/collector_node/collector_node.py:280-300 | the send loop sends exactly `Sent` over all items and ends as `Run` does; the labels fetched are those visited; the socket stays open unless the connection was lost |
| Collector.EndOf | src/collector_node/collector_node.py:299-306 | how a run ends from how the loop ended: items exhausted is a finished run, `ConnectionClosedError` is caught as a dropped connection, and any other exception escapes as a crash |
| Collector.Queried | src/collector_node/collector_node.py:239-240 | the DEX pairs queried: none when the DEX path is disabled, otherwise the selection of lines 143-147 for the DEX labels; `CntDisabledSendsOnlyCex` and `FinishedRunHadDexFields` rest on it |
| Collector.Expected | src/collector_node/collector_node.py:244-306 | the whole run for a visiting order: the DEX batch and the endpoint come first; a refused status or an unreachable validator sends and fetches nothing; an accepted connection sends `Sent` and ends as `Run` does |
| Collector.FetchAndSend | src/collector_node/collector_node.py:244-306 | a run is `Expected` for a permutation of the CEX labels; without a connection no label is visited and no socket exists; with one, the socket ends closed and holds exactly the payloads sent |
| Collector.RandInt | src/collector_node/collector_node.py:323 | the value lies between the bounds |
| Collector.CollectorMain | src/collector_node/collector_node.py:309-328 | the stagger lies in 1..15; the run is `Expected` for a permutation of the CEX labels (none without a connection); an opened connection ends closed, holding exactly the payloads sent |
| Collector.ItemsSplit | src/collector_node/collector_node.py:282-298 | the loop's items are the CEX items, then the DEX items |
| Collector.ConnectedRun | src/collector_node/collector_node.py:274-300 | a connected run sends what the send loop sends and ends as it does |
| Collector.CexBeforeDex | src/collector_node/collector_node.py:282-298 | every CEX message is sent before any DEX message, each group in order |
| Collector.CntDisabledSendsOnlyCex | src/collector_node/collector_node.py:239-241 | without the DEX modules, nothing is queried and only CEX messages are sent |
| Collector.CexStopSkipsDex | src/collector_node/collector_node.py:282-300 | a stop in the CEX loop ends the run; no DEX message is sent |
| Collector.AnsweredRunSendsEverything | src/collector_node/collector_node.py:221-231 | rejections and timeouts never cut a run short; with no raising item and every wait after a send ending in a reply or timeout, everything is sent, CEX first |
| Collector.FinishedRun | src/collector_node/collector_node.py:280-300 | a finished run was connected, met no raising item, had every wait after a send end in a reply or timeout, and sent every value |
| Collector.DroppedOnLastMessage | src/collector_node/collector_node.py:299-300 | a dropped connection is the outcome of the wait after the last send; every earlier wait ended in a reply or timeout |
| Collector.DexItemOf | src/collector_node/collector_node.py:128-136 | a DEX wrapper is never skipped; it is sent exactly when the check's message has the log fields, and a null message raises |
| Collector.FinishedRunHadDexFields | src/collector_node/collector_node.py:293-298 | a finished run with the DEX path had the log fields in the check's message of every queried pair |

## Left out

- Process locking (`flock`), argument parsing, configuration loading and the feeds-file reader are left out. They are file and OS I/O. Only the `FeedSpec` record shape is modelled (src/collector_node/feed_helper.py:14-23).
- Reading the node identity file, and the `KeyError` when `node_id` is missing, are left out. The identity is modelled as its node id string.
- The subprocess, sqlite, Ogmios/Kupo and `check_tokens_pair` internals are left out. Their failures are not modelled beyond the outcomes above. A `check_tokens_pair` exception is not modelled. Standard output or standard error that is not valid UTF-8 makes `.decode()` at lines 169-170 raise `UnicodeDecodeError`, which lines 171-176 do not catch, so the run escapes; `GoferOutcome` has no case for it, and `Undecodable` stands only for text that is not JSON.
- Collector.CollectorMain: the contract does not say that the stagger at line 323 comes before reading the identity and before any fetching. Only the order of statements in the body shows it, and reading the identity is not modelled.
- Sleeps, log output and the 10-second `wait_for` bound are left out as timing. A timeout is one of the validator outcomes.
- The user-agent header and the 120-second connection timeout are left out.
- The list form of `VALIDATOR_URI` is left out. The endpoint is built from a single string.
- `sign_with_key` and `json.dumps` are one uninterpreted function, which cannot fail.
- An exception raised while leaving the connection block is left out.
- The price-fetch outcome is a function of the label. Running the process twice for one label always gives the same outcome.
- `RANDOM_WAIT_MAX` in the configuration is never read by the run. The `collector_main` docstring says the stagger is 1 to 20 seconds. The model follows the code, `randint(1, 15)`.
- The outcome input is the stream of waits, not answers matched to messages: a late answer to one message is read by the next wait and classified as the next message's. The model says nothing about which message an answer belongs to.
- `send_to_ws` returns the same way after an `ERROR` reply and after a plain reply. The two differ only in logging, which is not modelled.
- Values are simplified in three ways. `sign` is a function of the decoded value, whose dicts are unordered maps, while the `json.dumps` text at line 219 depends on key order. `Num` holds reals, so it cannot represent the `NaN` and `Infinity` that `json.loads` accepts (`NaN` is truthy in Python). A reply is text, so a binary frame, for which `"ERROR" in msg` raises `TypeError` at line 225, can only be stood for by `OtherFailure`.
- `Submission.SendCex`, `Submission.SendDex`, `Submission.SubmitAll`, `Transport.SendToWs`: a message is counted as sent once it is handed to the socket. This holds even when that same exchange reports the connection closed.
