# A verified model of the syslog load generator

The repository generates log messages from templates and schemas, encodes them in several formats, and
dispatches them to targets through bounded queues read by pools of workers. This project models the parts
with the hardest behaviour and proves what they promise, for every input, every draw of the random
generator and every interleaving.

* **Generation and dispatch.** `WorkerPool` is one target: a bounded queue and the workers that share it.
  `Pipeline` interleaves the producer loop of a phase with all pools, and `PhaseLoop` is that loop
  over mutable counters and queues, refining it. `ProfileRun` and `Shutdown` are a whole
  profile with signals, deadlines and drains. `Dispatch` and `Broadcast` choose where a message goes.
* **Encoders.** `Cef`, `Leef`, `FormatCommon` and `Rfc5424`, `JsonLines`, and `Wire` with `Protobuf` are the
  printers, each with a parser for its format and a proof that the parser inverts the printer.
  `Escaping`, `Decimal` and `Utf8` hold what they share.
* **Templates.** `Template` is the map-keyed compiler that walks characters, `PlanTemplate` the slot-indexed
  one that scans bytes, `PlanValue` the arena it renders from; `TemplateEquivalence` relates the two.
* **Random generation.** `RegexGen` walks a regular expression over a stream of draws, `Weighted` chooses an
  index, `SeedMix` derives the seed of a message, `SchemaGen` fills the fields of a schema.
* **Files and overrides.** `Rotation` is the file sender with its rotation and cleanup, `Retention` says when
  that cleanup deletes the oldest files, `SetOverride` models the paths and updates of `--set`. `Sorting`,
  `Words` (machine words and their bits), `Arith` and `Basics` are common ground.

Loops and buffers of the source are methods over mutable objects, proved against specification functions;
the lemmas are about those functions. Concurrency is modelled by step systems whose actions interleave in
any order. A draw is a number of an arbitrary stream, reduced to the stated range.

## What the proofs brought to light

Each of these is proved: exactly when the promise holds, and an input for which it does not.

* A worker can leave messages behind: `next_msg` may see an empty queue, then a send and the drop of the
  last sender, then a closed channel (`WorkerPool.LosingScheduleLoses`). Only an empty list of messages is
  always drained (`WorkerPool.DrainsIffNothingSent`). A complete run loses the last messages accepted, as many
  as its order of sends and polls leaves in the queue, and none exactly when that number is zero
  (`WorkerPool.PoolLoss`).
* A CEF severity loses its tens digit exactly from 100 on and when that digit is zero
  (`Cef.SeverityRoundTrip`); validation keeps severities at 10 or below.
* The capacity LEEF reserves is described as the worst case but counts neither the escapes of the message nor
  the separator after the last attribute (`Leef.CapacityExceeded`, one input for each). It suffices for all
  headers and attributes exactly when the message's own escapes and that separator fit in the message's
  length (`Leef.CapacityExact`).
* `sanitize_header` has a fast path that differs from its slow path exactly for a limit of zero and a text
  other than the empty one and the dash; the four limits in use are positive (`FormatCommon.SanitizeHeader`).
* The map-keyed template compiler turns `{{}}` into `{{`, the slot-indexed one keeps it
  (`TemplateEquivalence.EmptyHoleDiffers`); they agree exactly on the templates without an empty hole
  (`TemplateEquivalence.RenderingsAgree`).
* A protobuf field number of 2^61 or more comes back reduced modulo 2^61; below that everything is recovered
  (`Wire.TagDecodes`, `Protobuf.DecodeSerialized`).
* A character class yields a character for every draw exactly when it is not empty and no range straddles the
  surrogate gap (`RegexGen.ClassAlwaysYields`); the complement of the line feed does straddle it
  (`RegexGen.ComplementStraddles`).
* A schema field whose parent depends on a field itself sees its parent's final value, whatever the schema,
  exactly when the parent comes earlier by name (`SchemaGen.SeenIffEarlier`). For every other pair of names
  `SchemaGen.LateParentUnseen` and `SchemaGen.OwnParentUnseen` build a schema in which it does not.
* Two rotations within one second may delete the newer file before the older
  (`Retention.SameSecondLosesNewer`). The cleanup deletes the oldest files, however the directory is listed,
  exactly when the last file to go and the first to stay have different timestamps
  (`Retention.RetentionExact`).
* For a path without a directory part the cleanup lists the directory of the empty path, which fails, so the
  first rotation ends the sender (`Rotation.BarePathStops`); the sender fails exactly when there is no
  directory part and a rotation fires (`Rotation.FileSender.Run`).

Where the code and its documentation disagree the model follows the code: the Independent broadcast policy
awaits every send and never drops, CEF and LEEF always append `msg=` even when the message is empty, user
fields of a JSON record override `msg`, and a rotated file is named after the stem of the path, not after
the path.

## Model

| member | source | states |
|---|---|---|
| WorkerPool.RunValid | src/transport/mod.rs:163-180 | Whatever the workers and the sender do, the queue stays within its capacity and in send order, at most one worker is inside the lock, and every polled message is either in one worker's hands or finished |
| WorkerPool.LossIsSuffix | src/transport/mod.rs:163-180 | When the channel is closed and every worker has returned, the accepted messages are those written followed, in order, by those left in the queue |
| WorkerPool.DrainsIffNothingSent | src/transport/mod.rs:163-180 | For any pool size and capacity, every complete run that accepts a list of messages writes all of them exactly when the list is empty: the promise that a closed queue is drained fails for every other list |
| WorkerPool.LosingScheduleLoses | src/transport/mod.rs:163-180 | For every non-empty list there is a complete run in which the last message stays in the queue |
| WorkerPool.SingleWorkerLoss | src/transport/mod.rs:163-180 | With one worker the messages lost are exactly those sent after its last poll |
| WorkerPool.PoolLoss | src/transport/mod.rs:163-180 | For a pool of any size the order of sends and polls alone decides the loss: the last `Backlog` accepted messages are lost, all others are written, and nothing is lost exactly when the backlog is zero |
| WorkerPool.ContendedWorkersLose | src/transport/mod.rs:163-180 | Two workers contending for the lock can both return although the message was sent, and the channel closed, long before |
| Pipeline.ExactlyOnePlace | src/generator/core.rs:1483-1664 | In every interleaving each generated message is in exactly one place: dropped by packet loss, being sent, in its target's queue, in one worker's hands, or finished; no other message exists |
| Pipeline.QueuesBoundedAndOrdered | src/generator/core.rs:1149-1172 | No queue exceeds its capacity, and what was polled from a target followed by its queue is the increasing list of the messages routed to it |
| Pipeline.GenerationBounded | src/generator/core.rs:1483-1503 | The sequence counter never exceeds the message count; a phase that ends without a cancellation or its deadline has made its whole count, and exactly one message when it has neither count nor duration |
| Pipeline.StopEndsGeneration | src/generator/core.rs:1483-1544 | From any state in which the token is cancelled or the deadline has passed, whatever follows, no message is generated but the one whose pacing had already begun |
| Pipeline.LoadShared | src/generator/core.rs:1648-1652 | In every interleaving without packet loss target t has accepted, of n messages, between floor(n/W) and ceil(n/W) times its weight (at least one), W being the length of the dispatch table |
| Pipeline.PhaseOutcome | src/generator/core.rs:1648-1664 | After the senders are dropped and all workers have ended, what was routed to a target is what its workers wrote followed by what they left behind |
| PhaseLoop.Loop.Run | src/generator/core.rs:1483-1661 | Every execution of the loop, with the workers, signals and the deadline acting at its await points, is a run of the step system, so all its theorems hold of the counters and queues |
| PhaseLoop.Loop.Interleave | src/generator/core.rs:1510-1544 | At an await point exactly the possible ones of the given signals, deadlines and worker steps happen, in order; the producer's place is kept |
| PhaseLoop.Loop.MustStop | src/generator/core.rs:1484-1503 | The test at the top of the loop ends it after a cancellation or the deadline, and lets a phase limited by its duration alone go on otherwise |
| PhaseLoop.Loop.Generate | src/generator/core.rs:1515-1559 | A cancellation that wins over the pacing ends the loop without a message; otherwise exactly one message is generated |
| PhaseLoop.Loop.OneMoreAtMost | src/generator/core.rs:1483-1661 | Wherever the loop stands: since any earlier moment at which a cancellation or the deadline held, at most one message was generated, and only if it was being paced then |
| PhaseLoop.Loop.DropSenders | src/generator/core.rs:1661 | The senders are dropped one by one, each closing its open queue |
| Shutdown.SignalHandler.HandleSignal | src/shutdown.rs:74-91 | The first signal cancels the token and the second, whichever signal it is, ends the process |
| Shutdown.GracefulDrainWait | src/shutdown.rs:112-143 | The wait succeeds exactly when every sender returns in time and without an error; a failure names the first failed sender that all earlier ones were waited for, a timeout means one did not return in time |
| ProfileRun.CancellationStopsGeneration | src/generator/core.rs:1483-1544 | Over a whole profile at most one message is generated after the token is cancelled, and none of it in a later phase |
| ProfileRun.OneLateMessage | src/generator/core.rs:1510-1544 | That bound is attained: a cancellation during pacing can let one message through |
| ProfileRun.StopEndsPhase | src/generator/core.rs:1483-1503 | Once a phase has seen its deadline pass or a signal, or is over, whatever follows in the profile it generates no message but the one whose pacing had already begun |
| ProfileRun.CompletedRun | src/generator/core.rs:1483-1664 | Phases start one by one in order; a run that ends as complete has started all of them, and without a signal each made its whole count, or one message when nothing limits it, unless its deadline passed |
| ProfileRun.SecondSignalExits | src/shutdown.rs:74-91 | In every run the process has exited exactly when two signals have arrived |
| ProfileRun.CountsRespected | src/generator/core.rs:1493-1503 | No phase of a profile generates more than its total, whatever signals and deadlines arrive |
| ProfileRun.DrainSeparatesPhases | src/generator/core.rs:1661-1664 | In drain mode a phase generates nothing before every sender of the phase before it has ended well, and after a failed drain nothing starts; in the other mode no run waits for senders or fails |
| Dispatch.CreateDispatcher | src/generator/core.rs:30-47 | The loops build the table that lists target i max(1, weight) times in target order, or each target once |
| Dispatch.TableShares | src/generator/core.rs:30-47 | Every table of at least one target is non-empty, names valid targets only and lists each target as often as its weight, a weight of zero counting as one, or once when distribution is not weighted |
| Dispatch.CycleCount | src/generator/core.rs:1648-1652 | Any run of consecutive sequence numbers as long as the table picks each target as often as the table lists it, wherever the run starts |
| Dispatch.PicksInOrder | src/generator/core.rs:1648-1652 | The first sequence numbers pick the entries of the table in order from its first one, and every cycle repeats the one before |
| Dispatch.FairShare | src/generator/core.rs:1648-1652 | Any n consecutive sequence numbers pick a target between floor(n/W) and ceil(n/W) times its weight (at least one), W being the table's length, and every pick is a valid target |
| Broadcast.IndependentMatchesStrict | src/generator/core.rs:969-985 | In whatever order the spawned sends complete, at message boundaries each queue has accepted the same history under Independent as under Strict |
| Broadcast.HistoriesDifferByOne | src/generator/core.rs:968-985 | At every moment two targets' accepted histories are equal or differ by the current message alone |
| Broadcast.BestEffortOnlyOmits | src/generator/core.rs:986-993 | What a target accepted under BestEffort is a subsequence of what was generated, and every message that has been through it was accepted or dropped |
| Broadcast.LanesBounded | src/generator/core.rs:962-994 | Under every policy no queue exceeds its capacity |
| Broadcast.DropsOnlyWhenFull | src/generator/core.rs:986-993 | In every run a step drops a message for a target exactly when it is a BestEffort attempt at that target and its queue is full; nothing else of the target changes |
| Broadcast.QueueHoldsNewest | src/generator/core.rs:962-994 | Under every policy a target's queue is the end of the list of what it accepted, so targets consume in order |
| Escaping.EscapeHeaderInto | src/format/cef.rs:130-146 | The loop, the same in CEF and LEEF, appends the header escaping of its text, two characters escaped |
| Escaping.HeaderEscapes | src/format/cef.rs:130-146 | In a header field backslash and pipe get a backslash in front and no other byte is changed |
| Cef.EscapeExtensionValueInto | src/format/cef.rs:152-172 | The loop appends the value escaping of its text, three characters escaped |
| Cef.ValueEscapes | src/format/cef.rs:152-172 | In a value backslash, pipe and equals sign get a backslash in front and no other byte is changed |
| Cef.PushU8Decimal | src/format/cef.rs:113-125 | Appends up to three digits, the tens digit only when it is not zero |
| Cef.Build | src/format/cef.rs:36-103 | The bytes written are the event: prefix, five escaped header fields, severity, the pairs and the message last |
| Cef.ParseEvent | src/format/cef.rs:36-103 | Every event begins with CEF:0 and a pipe and decodes to vendor, product, version, signature id, name and severity in this order and the pairs with the message under msg last, for any fields and values and for keys free of space, equals sign and backslash |
| Cef.SeverityRoundTrip | src/format/cef.rs:113-125 | The severity's digits read back as the severity exactly when no zero tens digit was dropped |
| Cef.CapacitySuffices | src/format/cef.rs:38-66 | The capacity computed before writing bounds the length of the event |
| Leef.EscapeAttrValueInto | src/format/leef.rs:127-149 | The loop appends the value escaping of its text, tab and line feed becoming letters |
| Leef.ValueEscapes | src/format/leef.rs:127-149 | In a value backslash and equals sign get a backslash in front, a tab becomes backslash t, a line feed backslash n, and no other byte is changed |
| Leef.Build | src/format/leef.rs:35-103 | The bytes written are the event: prefix, four escaped header fields, tab-closed attributes, the message and a line feed |
| Leef.ParseEvent | src/format/leef.rs:35-149 | Every event begins with LEEF:2.0 and a pipe; one whose header fields hold no tab or line feed and whose keys hold no tab, line feed or equals sign decodes to its fields, its attributes and the message under msg |
| Leef.OneLineFeed | src/format/leef.rs:35-103 | The last byte is a line feed, and it is the only one exactly when no header field and no key holds one |
| Leef.CapacityShortfall | src/format/leef.rs:37-60 | For every header, attributes and message the event exceeds the computed capacity at most by what escaping adds to the message and by one separator |
| Leef.CapacityExact | src/format/leef.rs:37-60 | The computed capacity covers every event with n attributes and a given message exactly when the escaped message, and one separator if there are attributes, fit in the length of the message |
| Leef.CapacityExceeded | src/format/leef.rs:37-60 | One escaped byte in the message exceeds the computed capacity by one, and so does a single attribute with no escape anywhere |
| FormatCommon.PrivalDecodes | src/format/mod.rs:60-64 | The priority value is at most 191 and its quotient and remainder by eight are the clamped facility and severity |
| FormatCommon.SanitizeHeader | src/format/mod.rs:76-115 | The scan-first result equals the character-by-character one for every text and every positive limit; for a limit of zero it is empty and differs |
| FormatCommon.SanitizedShape | src/format/mod.rs:66-115 | A sanitized field is non-empty, printable ASCII, within the limit in bytes, and equal to its input when that is already clean |
| FormatCommon.NameShown | src/format/mod.rs:66-115 | A name is shown as the dash when empty, otherwise as its first characters up to the limit, printable ASCII as it is and an underscore for anything else |
| FormatCommon.EscapeSdValue | src/format/mod.rs:136-148 | The bytes of the escaped value are the escaped bytes of the value, for every Unicode text |
| FormatCommon.SdEscapes | src/format/mod.rs:134-148 | Quotation mark, backslash and closing bracket get a backslash in front and no other byte is changed |
| Rfc5424.FillDigits | src/format/rfc5424.rs:83-96 | Filling the digit array from its end leaves the decimal numeral in its tail |
| Rfc5424.BuildInto | src/format/rfc5424.rs:25-79 | The buffer grows by exactly the message: priority, version, timestamp, four sanitized names, structured data and body |
| Rfc5424.ParseMessage | src/format/rfc5424.rs:25-79 | A message with a space-free timestamp and structured data that is absent or made of elements with escaped values begins with its priority and version 1 and splits back into the clamped facility and severity, the timestamp given or else the current one, host, application, process and message id in this order with limits 255, 48, 128 and 32, the elements, and the body behind the byte order mark |
| Wire.WriteVarint | src/format/protobuf.rs:71-83 | The loop appends the base-128 varint of its argument |
| Wire.ReadVarintWritten | src/format/protobuf.rs:71-83 | Reading a varint in front of any bytes returns the number and those bytes |
| Wire.VarintAtMostTen | src/format/protobuf.rs:71-83 | A 64-bit number takes at most ten octets |
| Wire.VarintShortest | src/format/protobuf.rs:71-83 | Any other octets that read as the same number are longer: the varint is canonical |
| Wire.ZigzagBijective | src/format/protobuf.rs:86-88 | The zigzag, a shift to the left, a sign mask and an exclusive-or on the bits of the word, is a bijection between signed and unsigned 64-bit words |
| Wire.ZigzagValue | src/format/protobuf.rs:86-88 | In numbers the shifted and masked word is 2v, or -2v-1 for a negative v |
| Wire.TagDecodes | src/format/protobuf.rs:91-93 | The wire type is always recovered from a tag, the field number exactly when it is below 2^61 and modulo 2^61 otherwise |
| Wire.ReadMessageWritten | src/format/protobuf.rs:96-133 | Decoding a message returns its fields in order with their payloads |
| Protobuf.EncodeField | src/format/protobuf.rs:96-133 | Each of the eight types appends its tag and the payload of its value |
| Protobuf.ValueRecovered | src/format/protobuf.rs:96-133 | A reader that knows the type gets the value back: text, signed and unsigned numbers, zigzag, truth values and the octets of floating-point numbers |
| Protobuf.NumbersSent | src/format/protobuf.rs:96-133 | A printed 64-bit number is recovered by a reader of each signed integer type |
| Protobuf.UnsignedSent | src/format/protobuf.rs:96-133 | A printed unsigned 64-bit number is sent as it is, and a word that is no number as zero |
| Protobuf.TruthSent | src/format/protobuf.rs:96-133 | The words for true are sent as one and others as zero |
| Protobuf.KnownTypes | src/format/protobuf.rs:45-58 | The keyword list used to tell a type from a template names exactly the words that the type parser understands |
| Protobuf.TypeWords | src/format/protobuf.rs:45-58 | Which keyword names which of the eight types, in any case of its letters |
| Protobuf.SpecForms | src/format/protobuf.rs:142-162 | A printed specification, with or without a type, parses back to its number, type and template |
| Protobuf.SpecDefault | src/format/protobuf.rs:142-162 | The default number and type are used exactly when no numeral stands before the first colon |
| Protobuf.PositionalNumbers | src/format/protobuf.rs:194-209 | A specification without a colon takes its position in name order, counted from one, as its number, and text as its type |
| Protobuf.ResolveFields | src/format/protobuf.rs:194-209 | The fields are the specifications in name order, numbered by position where they give no number, with rendered templates |
| Protobuf.CompileProtobufFields | src/format/protobuf.rs:229-242 | The same specifications with compiled templates |
| Protobuf.SerializeProtobuf | src/format/protobuf.rs:283-297 | The bytes are the message of the resolved fields sorted by number |
| Protobuf.SerializeProtobufWithCompiled | src/format/protobuf.rs:251-262 | The bytes are the message of the compiled fields sorted by number, then rendered |
| Protobuf.SerializersAgree | src/format/protobuf.rs:251-297 | Both serializers encode the same field list for every schema and value map |
| Protobuf.KeyOrderIrrelevant | src/format/protobuf.rs:199-208 | The order in which the hash map yields its keys does not show |
| Protobuf.DecodeSerialized | src/format/protobuf.rs:283-297 | Decoding a serialized message returns the rendered fields sorted stably by number exactly when all numbers are below 2^61 |
| Sorting.SortByKeyStable | src/format/protobuf.rs:289-292 | The sort by number is ascending and keeps equal numbers in order |
| Sorting.BytesOrder | src/format/protobuf.rs:200-202 | Names compare as their bytes: where two first differ the smaller byte decides, and a prefix comes first |
| Sorting.StableSortUnique | src/format/protobuf.rs:289-292 | Nothing else is ascending and keeps equal numbers in order |
| Sorting.ArrivalIrrelevant | src/format/protobuf.rs:200-202 | Distinct names sort to the same list whatever their order |
| JsonLines.EscapeJsonStringInto | src/format/json_lines.rs:58-97 | Copying spans between escapes writes what escaping character by character writes, in quotation marks |
| JsonLines.PutMap | src/format/json_lines.rs:105-150 | Insertion into the sorted record is the map update |
| JsonLines.RecordValues | src/format/json_lines.rs:105-150 | The record holds every value the user gives and, under each other key, what the header says: timestamp or clock, level name, clamped facility, host, application, message, and process and message id when they are neither empty nor a dash; nothing else |
| JsonLines.Build | src/format/json_lines.rs:105-174 | The bytes are one line that reads back to a strictly sorted record equal to the standard fields overridden by the user's, with its only line feed at the end |
| JsonLines.ReadLineWritten | src/format/json_lines.rs:152-174 | Every line reads back to the entries it was built from, under the string rules of section 7 of RFC 8259 |
| JsonLines.ReadStringEscaped | src/format/json_lines.rs:58-97 | Every escaped text reads back to the text |
| JsonLines.OneLineFeed | src/format/json_lines.rs:152-174 | The bytes of a line hold exactly one line feed, the last |
| Template.Compile | src/template.rs:38-83 | The parts are those of the template's tokens, an unclosed pair of braces staying text and an empty hole losing its closing braces |
| Template.Render | src/template.rs:91-121 | One pass over the parts shows each value, or the placeholder itself when it has none |
| Template.PartsMean | src/template.rs:38-121 | Compiling and rendering together replace every hole by its value and change nothing else, the empty hole excepted |
| Template.PlaceholderShown | src/template.rs:38-121 | For any text without an opening brace, key without a closing one and rest, compiling and rendering shows the text, the key's value (or the placeholder itself when it has none), and the rest rendered on its own |
| Template.UnknownUnchanged | src/template.rs:38-121 | A template without an empty hole and without a known name, or without any opening brace, renders to itself |
| Template.SourceOfTokens | src/template.rs:38-83 | Tokens are the template cut up: printed in a row they are the template |
| PlanValue.ValueArena.Push | src/plan/value.rs:151-155 | The value goes into a new slot whose index is returned |
| PlanValue.ValueArena.Set | src/plan/value.rs:159-161 | Only the named slot changes |
| PlanTemplate.ParseInto | src/plan/template.rs:93-136 | The byte scan appends the parts of the template's tokens and their names, and cuts text at character boundaries only, so no slice panics |
| PlanTemplate.CompileFromStrings | src/plan/template.rs:82-88 | The templates' parts and names one after the other, slots numbered on from the names already there |
| PlanTemplate.RenderInto | src/plan/template.rs:55-75 | A linear pass appends the literals and the slots' values |
| PlanTemplate.PartShows | src/plan/template.rs:55-75 | Literal and static text is shown as it is and a slot as the arena's value |
| PlanTemplate.SlotsInOrder | src/plan/template.rs:82-136 | The slots of a compiled list are consecutive from the first free index, in order and as many as the names, so rendering reads inside the arena |
| PlanTemplate.ListShows | src/plan/template.rs:55-136 | Rendering a list shows its templates one after the other, every hole replaced by the value of its name |
| PlanTemplate.TemplatesRecovered | src/plan/template.rs:55-136 | Filling slot k with the k-th name in braces gives back the concatenated templates, for every list |
| TemplateEquivalence.TokensEncoded | src/plan/template.rs:93-136 | Cutting the bytes of a template finds the encoding of the tokens that cutting its characters finds |
| TemplateEquivalence.RenderingsAgree | src/plan/template.rs:55-136 | With each slot holding the value of its name, slot rendering equals compile-then-render by map exactly for the templates without an empty hole |
| TemplateEquivalence.EmptyHoleDiffers | src/template.rs:63-76 | A lone empty hole renders as two opening braces by map |
| SeedMix.DeriveSeed | src/payload.rs:37-49 | The sequence number can be recovered from the derived seed and the phase's seed, so no two messages of a phase share a generator seed |
| SeedMix.MixBijective | src/payload.rs:40-45 | For a fixed seed two 64-bit sequence numbers give the same generator seed exactly when they are equal, and every generator seed is reached |
| Weighted.WeightedIndex | src/payload.rs:269-284 | With a positive total the subtracting scan returns the index that owns the draw, the code after the loop being unreachable; otherwise the index is zero |
| Weighted.BuildCumulative | src/plan/schema.rs:148-160 | Entry i is the sum of the positive weights up to i |
| Weighted.OwnerIsFirstAbove | src/payload.rs:269-284 | The owner of a draw is the first index whose cumulative weight exceeds it; it is unique and its weight is positive |
| Weighted.IntervalsPartition | src/payload.rs:269-284 | The draws below the total are split into intervals, index i owning one of exactly its positive weight |
| Weighted.PositiveWeightReachable | src/payload.rs:289-295 | With positive weights, as for Zipf ranks, every index can be drawn |
| RegexGen.WriteClass | src/payload.rs:379-424 | The two loops over the ranges append the character at the drawn position of the class |
| RegexGen.GenHir | src/payload.rs:338-376 | The recursive walk appends the text of the draw stream and uses up the draws it reads, and it terminates |
| RegexGen.GenSound | src/payload.rs:338-424 | For a tree without look-around, empty classes or alternations, or ranges across the surrogate gap, every draw stream yields a string of the language |
| RegexGen.GenComplete | src/payload.rs:338-424 | Every string of the language with capped repetitions is the text of some stream, used up exactly |
| RegexGen.GenExact | src/payload.rs:338-424 | The texts generated are exactly the strings of the capped language |
| RegexGen.CapMeans | src/payload.rs:350-358 | Short of the 32-bit wrap a repetition is capped at sixteen more than its minimum |
| RegexGen.CappedInLanguage | src/payload.rs:350-358 | The cap only takes strings away |
| RegexGen.ClassAlwaysYields | src/payload.rs:379-404 | A class yields one of its characters for every draw exactly when it is not empty and no range straddles the surrogate gap |
| RegexGen.ComplementStraddles | src/payload.rs:379-404 | The complement of the line feed has a range across the gap, so the walk can yield no character for it |
| SchemaGen.GenSchemaFieldWithHir | src/generator/core.rs:877-928 | The value and the draws used are the same with the cached tree as with the pattern parsed anew |
| SchemaGen.GenerateUncached | src/generator/core.rs:169-194 | The two loops over the sorted fields compute the two passes |
| SchemaGen.Resolve | src/generator/core.rs:660-688 | The cache holds the sorted names and beside each its parsed pattern |
| SchemaGen.GenerateCached | src/generator/core.rs:299-330 | With the cache, for every schema and draw stream, the values and the draws used are those of the uncached passes |
| SchemaGen.IterationOrderIrrelevant | src/generator/core.rs:169-194 | The order in which the hash map yields the fields does not show |
| SchemaGen.IndependentValue | src/generator/core.rs:179-184 | A field without a parent keeps its first-pass value, one of its own type; a type other than regex takes it from the generator of that type |
| SchemaGen.RegexValue | src/generator/core.rs:877-928 | A field without a parent whose pattern parses to a tree without look-around, empty classes or alternations or ranges across the surrogate gap ends, in every schema and for every draw stream, with a string of the pattern's language, repetitions capped |
| SchemaGen.RegexFieldExact | src/generator/core.rs:877-928 | Where some stream leaves any wanted remainder after each field with an earlier name, the values such a field can end with are exactly the strings of that language |
| SchemaGen.RegexSteerable | src/generator/core.rs:877-928 | The condition on earlier fields holds of every such regular-expression field |
| SchemaGen.DependentValue | src/generator/core.rs:185-190 | A dependent field follows from its parent's final value when the parent has no parent or an earlier name, and otherwise from what the parent's name held before any field was generated |
| SchemaGen.SeenIffEarlier | src/generator/core.rs:179-190 | For any two names: in every library, schema, listing and start state in which the first depends on the second and the second on a field itself, the first follows from the second's final value, if and only if the second is earlier by name |
| SchemaGen.LateParentUnseen | src/generator/core.rs:185-190 | For every pair of distinct names in the wrong order there is a schema in which the field takes its default although its mapping has an entry for its parent's final value |
| SchemaGen.OwnParentUnseen | src/generator/core.rs:185-190 | A field that is its own parent need not follow from what it ends up with |
| Rotation.TimestampRecovered | src/transport/file.rs:163-194 | The cleanup reads back the timestamp of every name the rotation gives, with or without a counter |
| Rotation.TimestampExact | src/transport/file.rs:171-194 | For every log and file: a timestamp is read exactly when the file's stem is the log's stem, a dot and a 64-bit numeral up to the next dot or the end, and it is that numeral |
| Rotation.FileStemMeans | src/transport/file.rs:171-178 | A file's stem is its name without the last dot and what follows, unless there is no dot but for one that begins it |
| Rotation.PickName | src/transport/file.rs:119-150 | The stem, a dot, the seconds and .log when that is free, else the first free counter up to 100; only when all are taken the name with the nanoseconds |
| Rotation.CleanupOldRotatedFiles | src/transport/file.rs:163-211 | Without a directory part the listing fails and nothing is deleted; otherwise, for some order of the directory listing, exactly the oldest files beyond the limit are deleted, and they are counted; in any directory a file whose name does not begin with this log's stem and a dot stays, and what stays is unchanged |
| Rotation.RotateFile | src/transport/file.rs:107-152 | The current file takes the first permitted name, the cleanup runs on the renamed directory, and the count is one more than the deletions, or the cleanup's failure; files of other logs are untouched |
| Rotation.SortedByTime | src/transport/file.rs:196-197 | With distinct timestamps the files sort by the time of their rotation, in whatever order the directory is listed |
| Rotation.RotationKeepsNewest | src/transport/file.rs:107-211 | One rotation adds the current file to the rotated ones and leaves the newest ones, one less than the limit, all contents unchanged; without a directory part the file is renamed and nothing deleted |
| Rotation.FileSender.Rotate | src/transport/file.rs:309-323 | A rotation changes nothing of the history: lost records, rotated files in timestamp order, current file; it fails exactly without a directory part |
| Rotation.FileSender.Write | src/transport/file.rs:263-266 | The record and a line feed are appended to the current file and their bytes counted; no other file changes |
| Rotation.TriggersMean | src/transport/file.rs:253-292 | A rotation fires before the write exactly when the interval has passed, and after it exactly when the file holds the configured number of mebibytes |
| Rotation.FileSender.Handle | src/transport/file.rs:253-292 | One message: the interval and the size trigger act exactly when due, the record stays whole, the history grows by it, and the current file ends below the size limit; only a rotation that fires needs a fresh timestamp |
| Rotation.FileSender.Run | src/transport/file.rs:237-296 | After a run of any length in which the rotations that fire have strictly increasing timestamps, the surviving files and the current one hold a contiguous suffix of the records written, in at most the permitted number of files, ten by default, and all of them until that number is reached; the sender fails exactly when a rotation fires without a directory part |
| Rotation.AllWritten | src/transport/file.rs:237-296 | With a directory part, or when no rotation fires, everything handed over is written |
| Rotation.BarePathStops | src/transport/file.rs:165-174 | A file named without a directory part: the first rotation ends the sender and its message is not written |
| Retention.RetentionExact | src/transport/file.rs:196-208 | For a directory whose rotated files are given in timestamp order, every listing has the cleanup delete exactly the first files beyond the limit, if and only if none, all, or files up to a strict step in the timestamps are to go |
| Retention.SameSecondLosesNewer | src/transport/file.rs:196-208 | Two files of one second: the listing's order decides, and the newer one can be deleted first |
| SetOverride.EntryForms | src/cli/set_override.rs:22-31 | An entry is accepted as key and value exactly when it is a non-empty key without an equals sign, an equals sign and a non-empty value |
| SetOverride.ParsePath | src/cli/set_override.rs:73-113 | The loop over the characters computes the segments or the error |
| SetOverride.ParsePrinted | src/cli/set_override.rs:73-113 | Parsing inverts printing for every well-formed list of segments |
| SetOverride.ParsedNormal | src/cli/set_override.rs:73-113 | Whatever parses is well formed, and printing and parsing it again changes nothing |
| SetOverride.EmptyPathExact | src/cli/set_override.rs:73-113 | A path is rejected as empty exactly when it is made of dots alone |
| SetOverride.BadIndexFails | src/cli/set_override.rs:89-103 | Brackets around anything but an unsigned 64-bit number make the path an error, whatever follows |
| SetOverride.SetAtPath | src/cli/set_override.rs:121-148 | The update along a path, with the null left behind by a failed descent and the error that stopped it |
| SetOverride.SetGet | src/cli/set_override.rs:121-148 | After a successful set the path, and everything below it, reads the new value |
| SetOverride.GetSet | src/cli/set_override.rs:121-148 | Setting a path to what it holds changes nothing |
| SetOverride.SetSet | src/cli/set_override.rs:121-148 | The last of two sets at one path wins |
| SetOverride.SetElsewhere | src/cli/set_override.rs:121-148 | A set, even a failed one, changes nothing on a path that diverges from it |
| SetOverride.SetsCommute | src/cli/set_override.rs:121-148 | Sets at diverging paths commute, in the tree and in their errors |
| SetOverride.SetSucceeds | src/cli/set_override.rs:121-148 | A set succeeds exactly when its parent exists and is an object, or an array long enough for the index |
| SetOverride.OverrideRead | src/cli/set_override.rs:38-71 | After an override of a path that can be set, the path reads the raw value as JSON, or as a string when it is none, and every path that diverges from it reads what it did |
| SetOverride.ProfileCell.ApplySetOverrides | src/cli/set_override.rs:38-59 | Either every override applies and the profile becomes the converted tree, or an error is returned and the profile is untouched |
| SetOverride.OverridesSwap | src/cli/set_override.rs:38-59 | Neighbouring overrides at diverging paths may be swapped |
| Utf8.DecodeEncode | src/plan/template.rs:93-100 | Text is recovered from its UTF-8 bytes, which the byte scanners rely on |
| Utf8.AfterAscii | src/plan/template.rs:99-101 | Before and after an ASCII byte of valid text one may cut |
| Escaping.FieldEscaped | src/format/cef.rs:130-172 | A reader of backslash escapes recovers every escaped text up to an unescaped stop byte |
| Decimal.ParseU64Text | src/format/protobuf.rs:145-146 | A printed numeral parses back exactly when it fits in 64 bits |
| Decimal.ParseI64Text | src/format/protobuf.rs:104-116 | A printed number, with a minus sign if negative, parses back exactly when it fits in 64 bits with its sign |

## Left out

- Sockets, TLS, Kafka, HTTP metrics, tracing, progress bars and the command line: wrappers over libraries that are not part of this model.
- Load shapes, rate limiting and anomaly rates: short floating-point formulas; pacing is an arbitrary delay and packet loss an arbitrary predicate of the sequence number.
- Profile validation: independent field checks; its ranges appear as conditions only.
- Failures of message generation and of background jobs other than the senders: in `Pipeline` workers stay alive and generation succeeds.
- The distributions and templates of a compiled schema beyond its cumulative table, and the debugging form of a protobuf schema: they would only add easy members.
- Broadcast inside `Pipeline`: it is a step system of its own in `Broadcast`, with open receivers.
- Rounding of floating-point numbers: weights are real numbers, and the octets of protobuf doubles and floats come from two arbitrary functions of the text.
- The generators of schema types other than regular expressions, and the parser of regular expressions: arbitrary functions of the draw stream and of the pattern.
- Byte classes of regular expressions: a byte class is a class of characters below 256, the same walk.
- RFC 3164, raw output, the padding of bodies and the slot path of whole messages: they would add only easy members or are marked partial in the source.
- Buffered writing and files shared by several workers: `Rotation` follows the records handed to the writer by one worker, in a fresh directory with successful deletes.
- Rotation.FileSender.Run: assumes that the wall-clock seconds of the rotations that fire strictly increase, because without that the promise fails (`Retention.RetentionExact` says when), a directory without earlier rotated files, and a configuration that passed validation; the clocks are otherwise arbitrary.
- SchemaGen.RegexFieldExact: asks of the fields with an earlier name that some stream leaves any wanted remainder after them, because the generators of other types are arbitrary functions here and could use up every stream.
- SetOverride.SetAtPath: returns the updated tree instead of writing through references into it, so aliasing is not captured; the profile itself is replaced in place by `ApplySetOverrides`.
- JsonLines.EscapeJsonStringInto: positions count characters, not bytes; spans begin and end at character boundaries either way.
- JsonLines.Build: bytes that are not UTF-8 go through an arbitrary replacement function, as the library's lossy conversion is not part of this model.
- PlanTemplate.RenderInto: stands for both renderers, text being its UTF-8 bytes.
- Cef.ParseEvent: the severity must be one that prints as its own numeral; `Cef.SeverityRoundTrip` says which ones do.
- Conversion of profiles to and from JSON: two arbitrary functions; the model starts from the JSON value.
