# Michelangelo: a verified model of its codec, deletion protocol, CRD evolution and generators

A Dafny 4.11 project. It models four parts of the repository and proves what each is for.

**The protobuf wire codec** (`Varint`, `WireSkip`, `Fields`, `Messages`, `MessageLaws`, `RoundTrip`,
`ValidationRoundTrip`, `WireForm`, and as code `CodecBuffer`, `ListCodec`, `ListTree`, `ListOptions`, `OptionsBuffer`,
`ValidationCodec`, `CodecRoundTrip`). On values: `Enc` is what `Marshal` emits, `Parse` folds the fields of a byte
string into a message. On top of these stand the classes: encoders that fill an array from back to front, decoders that run
an index over a slice, with the 64-bit wrap-around tests. The encoders write exactly the last `Size()` bytes and
equal `Enc`; the decoders equal `Parse`, including which error they return, on every byte string. They have
no precondition on the bytes, so termination and absence of out-of-range reads hold on all input (slices are
shorter than 2^63 bytes, as in Go). About the values: round trips of whole trees, concatenation is merging,
unknown fields are invisible, and the group scanner accepts exactly the fields of the wire grammar; `WireForm` ties
every field to its number, wire type and value in the proto files, both ways, and says which input is refused. The
standard is the Protocol Buffers Encoding guide, sections "Base 128 Varints", "Length-Delimited Records",
"Oneofs", "Last One Wins" and "Groups".

**The deletion protocol** (`KubeObjects`, `KubeClient`, `CascadeDrain`, `DrainGauge`, `DrainExclusion`, `DrainHistory`,
`DrainPass`, `DrainProgress`, `DrainLiveness`, `DrainStep`, `Ingestion`, `NoObjectLost`, `DeletionOutcomes`,
`ImmutableRelease`, `IngesterAnswers`, `IngesterStep`, `ApiDelete`, `Lifecycle`). The API server keeps every version of every object; a resourceVersion is a position in that history, an update commits only on the
newest one, a stale read is any earlier one. Drain workers, ingesters, the API's delete handler and everybody
else take single API calls as steps, each of which may fail without effect. Two machines, one for the drain and
one for the ingester, see each other as outside steps that leave their own finalizer and token alone;
`Lifecycle` runs both on the same objects and proves that each keeps what the other relies on. The classes in
`DrainStep`, `IngesterStep` and `ApiDelete` are the reconcile and handler code; undisturbed, each does what its machine
does when one worker takes all its steps in a row. What such a pass achieves when everybody answers is stated on the
stored objects, by the stored names, in `DrainLiveness` and `IngesterAnswers`. The gauge is exact in every interleaving (`GaugeIsExact`). The controllers' work
queue hands an object to one worker at a time, and in every run that keeps to this the gauge is never below the
decrements still to come (`GaugeNeverNegative`); in a run that did not, it could fall to -1 (`OvertakingGoesNegative`).

**CRD evolution** (`SchemaDiff`, `SchemaCompare`, `CrdGateway`, `CrdEvolution`). The recursive schema diff, what
"compatible" means in terms of paths, and runs of several API-server replicas that update one stored CRD.

**Two generators** (`SchemaUnfold`, `UnfoldLaws`, `UnfoldPanics`, `ConversionTargets`, `ConversionFits`,
`ConversionCalls`, `ConversionRuns`, `ConversionResolves`). The unfolding of a possibly cyclic message graph into a CRD
schema; the worklist that collects the messages to convert, the code emitted in both directions and when the generator
panics instead, what that code does to values, and whether its calls resolve.

## Where the code falls short of its own description

Each of these follows the code; the exact condition is proved for all inputs.

- Deleting through the API (go/components/ingester/controller.go:305-342 is described as a single pass that
  avoids double deletes). The row goes first and a missing row is an error, so one failed Kubernetes delete, or
  a delete that reaches the ingester before the first sync, leaves the object marked and undeleted for
  ever: `FailedDeleteSticks`, `EarlyDeleteSticks`, `StuckForever`. It proceeds if and only if the row is live when
  the mark is processed: `ApiDeletionProceeds`.
- The ingester "ensures the object is already in metadata storage" before it lets go of an immutable object
  (go/components/ingester/controller.go:345-372). The upsert does not clear `delete_time`
  (go/storage/mysql/mysql.go:1176-1184), so an object created under the primary key of a deleted row is lost.
  Objects are safe in all runs if and only if they are not born over such a row, or are born already marked:
  `SafeIffNoTombstone`.
- The schema generator is meant to stop recursing on a cycle (go/kubeproto/yaml/kubeyaml.go:162-219). When the
  cycle comes back through a map entry it panics instead, because the unfinished entry has no "key" property.
  As the root type is not put on the path, this happens if and only if a map field of the root message leads
  back to the root: `PanicsIffRootLoop`; the smallest case is `RecursiveMapPanics`.
- Two versions that disagree in different ways make `isSpecChangeCompatible` answer by map order: an error for
  the missing one or "incompatible" for the other, as on the pair of CRDs in `TwoAnswers`. This can happen if and
  only if a version is missing and another one, present in both, does not fit: `AmbiguousIff`. The answer is unique
  if and only if no version is missing, or a single one is and all others fit: `OneAnswerIff`. Behind the gateway's
  own version check it is: `VerdictIsDetermined`.
- Converting to the hub version and back is meant to lose no mapped field. It loses none, in any record, if and only if
  no field is overtaken by a later one of the same target in its group, no plain field goes into a hub oneof, no two
  oneofs go to one hub oneof, and every field's own conversion is undone: `RoundTripIff`, which also counts in the oneof
  cases with a nil message, all of which are dropped. The generator accepts pairs of messages that break this:
  `SharedTargetLoses`, and `SharedOneofLoses`, where both directions even assign the same pairs.
- The conversion generator looks up the rename of the enclosing message for a plain field of a message type
  (go/kubeproto/conversion/version_conversion.go:320-327), where it should be that of the field's type. It accepts the
  right type, and only the right type, if and only if the two renames agree: `AcceptedIffRightType`; a renamed message
  with a message field panics: `RenamedMessagePanics`. So does a renamed enum outside maps, its option being read under another
  name (go/kubeproto/conversion/version_conversion.go:91-97, proto/api/options.proto:337-340): `EnumRenameIgnored`.
- Generated conversion code need not compile. Its calls resolve if and only if no assigned field carries a CRD
  (`ResolvesIffNoNestedCrd`), and the Spec and Status of every CRD are of messages named after it, in the package,
  generated, no CRDs, and drawn in by a field that is not ignored (`PartResolvesIff`). In one small package both go
  wrong: `NestedCrdDoesNotResolve`, `MisnamedStatusDoesNotResolve`.

## Model

| member | source | states |
|---|---|---|
| Varint.ReadVarintIff | proto-go/api/list.pb.go:1191-1206 | the decode loop succeeds with length n exactly when the first n bytes are a complete varint of at most ten bytes |
| Varint.VarintRoundTrip | proto-go/api/list.pb.go:984-994 | every 64-bit value is written in at most ten bytes and read back as itself, whatever follows |
| Varint.Int32RoundTrip | proto-go/api/list.pb.go:1320-1354 | an int32 written sign-extended comes back through the int32 loop as itself; what stands on the wire is fixed in WireForm.IntOnWire |
| Varint.SovIsLength | proto-go/api/list.pb.go:1099-1101 | `sovList(v)` is the number of bytes that `encodeVarintList` writes |
| Varint.SovIsLeast | proto-go/api/list.pb.go:1099-1101 | `sovList(v)` is at most n exactly when v < 2^(7n), so it is the least such n |
| Varint.EncodeVarint | proto-go/api/list.pb.go:984-994 | the loop fills exactly the bytes before the offset with the varint and changes no other byte |
| Varint.OrIsAddition | proto-go/api/list.pb.go:1191-1206 | the bit-or of the decode loop adds, in 64-bit and in 32-bit words and for every shift it reaches: the shifted bits, cut off at the word's end, never meet bits already there |
| Varint.DecodeVarint | proto-go/api/list.pb.go:1191-1206 | the inlined loop of 64 or 32 bits, written with shifts and bit-ors, reads the same bytes as the format, fails with the same error, and keeps the low bits of the value |
| WireSkip.SkipIff | proto-go/api/list.pb.go:1838-1915 | the scanner returns n within the input exactly when the first n bytes are one field of the wire grammar with balanced groups |
| WireSkip.SkipsField | proto-go/api/list.pb.go:1838-1915 | over a field of the grammar, nested groups included, the scanner moves to its end at the same depth |
| WireSkip.SkipSound | proto-go/api/list.pb.go:1838-1915 | a successful scan at depth d has passed a remainder of d open groups, each well formed and closed |
| WireSkip.SkippedField | proto-go/api/list.pb.go:1838-1915 | every accepted prefix is the encoding of some field of the grammar |
| WireSkip.SkipPrefix | proto-go/api/list.pb.go:1838-1915 | bytes after the field do not change what the scanner returns |
| WireSkip.SkipList | proto-go/api/list.pb.go:1838-1915 | the loop, with its wrapping index and its tests for a negative one, computes the scan on every input and never reads outside it |
| Fields.NextFieldPrefix | proto-go/api/list.pb.go:1513-1648 | a field is read the same way whatever bytes follow it and wherever in the buffer it stands |
| Fields.NextFieldBase | proto-go/api/list.pb.go:1513-1648 | the position in the buffer never decides whether a field is accepted |
| Fields.NextFieldOfUnknown | proto-go/api/list.pb.go:1629-1642 | a complete field of the grammar with an unknown number is stepped over as a whole |
| Fields.NextFieldOfBytes | proto-go/api/list.pb.go:1554-1583 | tag, length and payload as the encoder writes them are read back as that payload |
| Fields.NextFieldOfScalar | proto-go/api/list.pb.go:1584-1602 | tag and varint as the encoder writes them are read back as that value |
| MessageLaws.ParseConcat | proto-go/api/list.pb.go:1513-1837 | if a decodes into m, then a followed by c into m has the same outcome as c into that result, for every message kind |
| MessageLaws.UnknownFieldIgnored | proto-go/api/list.pb.go:1629-1642 | a complete field with an unknown number, groups and all, between two pieces of input never changes the outcome |
| MessageLaws.EmbeddedMerge | proto-go/api/list.pb.go:1717-1788 | two occurrences of a singular submessage decode like one occurrence of their concatenated payloads |
| MessageLaws.LastScalarWins | proto-go/api/options.pb.go:3669-3710 | of two occurrences of a scalar, or of two oneof cases, only the later one counts |
| RoundTrip.CriterionRoundTrip | proto-go/api/list.pb.go:826-856 | a Criterion with or without its Any, negative operators included, decodes to itself |
| RoundTrip.OperationRoundTrip | proto-go/api/list.pb.go:873-912 | every finite CriterionOperation tree decodes to itself, order and empty children kept |
| RoundTrip.ListOptionsRoundTrip | proto-go/api/list.pb.go:929-982 | every ListOptionsExt decodes to itself, with empty strings in lists and present but empty submessages |
| ValidationRoundTrip.ValidationTreeRoundTrip | proto-go/api/options.pb.go:1756-2065 | every Validation tree decodes to itself: which oneof case is set survives a false bool, plain false bools come back false |
| ValidationRoundTrip.MarshalRoundTrip | proto-go/api/list.pb.go:914-922 | Unmarshal of Marshal's bytes into an empty message yields the original, for every message kind |
| ValidationRoundTrip.MarshalInjective | proto-go/api/list.pb.go:914-922 | different messages of a kind never have the same encoding |
| WireForm.IntOnWire | proto-go/api/list.pb.go:793-809 | a nonzero int32 or enum field is its tag and a varint below 2^64 that equals the field modulo 2^64; a zero one is left out |
| WireForm.MinusOneOnWire | proto-go/api/list.pb.go:793-809 | a limit of -1 is exactly the eleven bytes 10 ff ff ff ff ff ff ff ff ff 01 |
| WireForm.OrderByOnWire | proto/api/list.proto:19-28 | field 1 is the string, field 2 the direction, in this order |
| WireForm.PaginationOnWire | proto/api/list.proto:34-40 | field 1 is the offset, field 2 the limit, as 64-bit two's complement, in this order |
| WireForm.CriterionOnWire | proto/api/list.proto:68-72 | field 1 is the name, field 2 the Any if there is one, even an empty one, field 3 the operator |
| WireForm.OperationOnWire | proto/api/list.proto:74-81 | field 1 is every criterion in order, field 2 the logical operator, field 3 every sub-operation in order, empty ones too |
| WireForm.ListOptionsOnWire | proto/api/list.proto:84-99 | field 1 is every OrderBy in order, fields 2 and 3 the submessages if not nil, field 4 every string in order |
| WireForm.ValidationTextsOnWire | proto/api/options.proto:240-276 | fields 1 to 11 hold what the proto file says, in order, each left out when empty or false |
| WireForm.ValidationFlagsOnWire | proto/api/options.proto:277-306 | the oneof is field 101 or 102 with its bool whenever a case is set; fields 103, 104, 201 and 301 to 308 follow, left out when false or empty |
| WireForm.ValidationOnWire | proto/api/options.proto:307-313 | items, keys and values are fields 401, 402 and 403 after these, present exactly when not nil |
| WireForm.PaginationReads | proto-go/api/list.pb.go:1317-1356 | an int32 field takes the varint modulo 2^32, offset from field 1 and limit from field 2, and leaves the other alone |
| WireForm.FlagReads | proto-go/api/options.pb.go:3457-3476 | any varint but zero sets a bool, zero clears it, and nothing else changes |
| WireForm.PresenceReads | proto-go/api/options.pb.go:3669-3710 | field 101 or 102 sets that case of the oneof to whether the varint is nonzero |
| WireForm.OtherWireTypeRefused | proto-go/api/list.pb.go:1316-1339 | a field of the proto file with any other wire type is an error that names both, wherever it comes; with wire type 4 it is an end of group |
| WireForm.IllegalTagRefused | proto-go/api/list.pb.go:1308-1315 | a field number that is zero or negative as an int32 is an illegal tag, and wire type 4 an end of group, for every message |
| WireForm.BrokenVarintRefused | proto-go/api/list.pb.go:1291-1307 | a tag that is no complete varint is an overflow exactly if ten continuation bytes came, otherwise an unexpected end |
| WireForm.BadLengthRefused | proto-go/api/list.pb.go:1558-1583 | a length-delimited field that goes beyond the input is an invalid length if its end does not fit an int64, otherwise an unexpected end |
| CodecBuffer.ReadTagAt | proto-go/api/list.pb.go:1516-1539 | reads a tag at an index, with the end-group and illegal-tag errors, exactly as the value-level reader on the rest of the slice |
| CodecBuffer.ReadLengthAt | proto-go/api/list.pb.go:1558-1583 | the two tests for a negative int64 reject exactly the lengths that do not fit; otherwise the payload lies within the slice |
| CodecBuffer.SkipUnknownAt | proto-go/api/list.pb.go:1629-1642 | the default case steps over one field or reports the same error as the scan |
| CodecBuffer.EmittedInFront | proto-go/api/list.pb.go:873-912 | bytes put just in front of what is already written extend it and leave the rest of the buffer alone |
| ListCodec.OrderByMessage.Size | proto-go/api/list.pb.go:995-1009 | the size is the length of the encoding |
| ListCodec.OrderByMessage.MarshalToSizedBuffer | proto-go/api/list.pb.go:758-776 | writes exactly the encoding into the last bytes before `end` and nothing else |
| ListCodec.OrderByMessage.Unmarshal | proto-go/api/list.pb.go:1187-1287 | decodes as the fold of fields does, result or error, on every byte string |
| ListCodec.OrderByMessage.Equal | proto-go/api/list.pb.go:497-523 | equal exactly when not nil and of the same contents |
| ListCodec.PaginationMessage.Size | proto-go/api/list.pb.go:1011-1024 | the size is the length of the encoding |
| ListCodec.PaginationMessage.MarshalToSizedBuffer | proto-go/api/list.pb.go:793-809 | writes exactly the encoding into the last bytes before `end` and nothing else |
| ListCodec.PaginationMessage.Unmarshal | proto-go/api/list.pb.go:1288-1375 | decodes as the fold of fields does, result or error, on every byte string |
| ListCodec.PaginationMessage.Equal | proto-go/api/list.pb.go:524-550 | equal exactly when not nil and of the same contents |
| ListCodec.CriterionMessage.Size | proto-go/api/list.pb.go:1026-1044 | the size is the length of the encoding, Any included |
| ListCodec.CriterionMessage.MarshalToSizedBuffer | proto-go/api/list.pb.go:826-856 | writes exactly the encoding into the last bytes before `end`, submessage before its header |
| ListCodec.CriterionMessage.Unmarshal | proto-go/api/list.pb.go:1376-1512 | decodes as the fold of fields does, merging into an Any already present |
| ListCodec.CriterionMessage.Equal | proto-go/api/list.pb.go:551-580 | equal exactly when not nil and of the same contents |
| ListTree.OperationMessage.Size | proto-go/api/list.pb.go:1046-1068 | the recursive size is the length of the encoding of the whole tree |
| ListTree.OperationMessage.MarshalToSizedBuffer | proto-go/api/list.pb.go:873-912 | exact fit through nested messages and reverse loops: the last `Size()` bytes before `end` are the encoding, all others untouched |
| ListTree.OperationMessage.Marshal | proto-go/api/list.pb.go:858-866 | a fresh buffer holding exactly the encoding |
| ListTree.OperationMessage.Unmarshal | proto-go/api/list.pb.go:1513-1649 | decodes a tree as the fold of fields does, with new children for list elements and old ones left alone; total on all input |
| ListTree.OperationMessage.Equal | proto-go/api/list.pb.go:581-620 | equal exactly when not nil and the same tree |
| ListOptions.ListOptionsMessage.Size | proto-go/api/list.pb.go:1070-1097 | the size is the length of the encoding |
| ListOptions.ListOptionsMessage.MarshalToSizedBuffer | proto-go/api/list.pb.go:929-982 | exact fit: the last `Size()` bytes before `end` are the encoding, all others untouched |
| ListOptions.ListOptionsMessage.Marshal | proto-go/api/list.pb.go:914-922 | a fresh buffer holding exactly the encoding |
| ListOptions.ListOptionsMessage.Unmarshal | proto-go/api/list.pb.go:1650-1837 | decodes as the fold of fields does; an operation or pagination already present is updated in place |
| ListOptions.ListOptionsMessage.Equal | proto-go/api/list.pb.go:621-663 | equal exactly when not nil and of the same contents, nil submessages included |
| ValidationCodec.LongTagIs | proto-go/api/options.pb.go:1756-1960 | the two-byte tags written are the varints of field number times eight plus wire type |
| ValidationCodec.ValidationMessage.Size | proto-go/api/options.pb.go:2227-2349 | the recursive size is the length of the encoding |
| ValidationCodec.ValidationMessage.MarshalToSizedBuffer | proto-go/api/options.pb.go:1756-2026 | exact fit through two-byte tags, the oneof and three optional children |
| ValidationCodec.ValidationMessage.MarshalPresence | proto-go/api/options.pb.go:2028-2065 | a set oneof case is written with its bool even when that is false |
| ValidationCodec.ValidationMessage.Marshal | proto-go/api/options.pb.go:1741-1749 | a fresh buffer holding exactly the encoding |
| ValidationCodec.ValidationMessage.Unmarshal | proto-go/api/options.pb.go:3300-4071 | decodes a tree as the fold of fields does, merging in place into children already present; total on all input |
| ValidationCodec.ValidationMessage.Equal | proto-go/api/options.pb.go:1143-1257 | equal exactly when not nil and the same tree |
| ValidationCodec.ValidationMessage.MergeShared | proto-go/api/options.pb.go:3943-4050 | where other pointers of the message go to the child that is decoded into, the payload shows behind each of them; the outcome is the fold's exactly when no other pointer goes there or the payload changes nothing |
| CodecRoundTrip.OperationSurvives | proto-go/api/list.pb.go:858-866 | Marshal, a new message, Unmarshal and Equal on the objects: always accepted and always equal |
| CodecRoundTrip.ListOptionsSurvives | proto-go/api/list.pb.go:914-922 | the same for the top-level list message |
| CodecRoundTrip.ValidationSurvives | proto-go/api/options.pb.go:1741-1749 | the same for the option message, also when its pointers share nodes |
| DrainGauge.GaugeIsExact | go/cascadedelete/drain.go:109-183 | in every interleaving the gauge, corrected by pending metric calls, is the number of children whose stored object carries the token |
| DrainExclusion.GaugeNeverNegative | go/cascadedelete/drain.go:109-183 | in every state of every run in which no two workers hold one child, the gauge is at least the number of decrements still to come |
| DrainExclusion.OvertakingGoesNegative | go/cascadedelete/drain.go:136-183 | the exclusion is needed: a run with two workers on one child ends with the gauge at -1 and nothing pending |
| DrainGauge.OneCancelOneClose | go/cascadedelete/drain.go:24-59 | per child at most one cancel and one counted completion ever commit, and the token stands exactly between them, always with the drain finalizer |
| DrainGauge.StepKeeps | go/cascadedelete/drain.go:109-183 | every single step, of any worker or of anybody else, keeps the token invariant and the gauge equation |
| DrainGauge.RequestCancelOk | go/components/pipelinerun/controller.go:352-360 | a committed cancel puts the token on a child that had none and leaves one increment pending |
| DrainGauge.CancelEffect | go/components/pipelinerun/controller.go:352-360 | a committed cancel changes only the token and, for a PipelineRun, Spec.Kill; a TriggerRun's trigger has been deleted by then |
| DrainGauge.FinishOk | go/cascadedelete/drain.go:169-183 | a committed completion takes the token away and leaves one decrement pending exactly if it was there |
| DrainGauge.CompletionEffect | go/components/pipelinerun/controller.go:417-428 | a committed completion removes exactly the drain finalizer and the token, marks a retained kind immutable, and the child vanishes exactly if that was its last finalizer |
| DrainHistory.HowDrainsEnd | go/cascadedelete/drain.go:83-161 | from the deletion of an active child on, with only the drain writing status: at most one cancel commits, and the drain is over only after one cancel and a persisted terminal Progress, or after a ForceKill past 24 hours |
| DrainHistory.TerminalProgressIsPersisted | go/components/triggerrun/controller.go:508-519 | Progress counts as terminal only with the engine's answer (DeleteTrigger succeeded) and the terminal status on the stored object |
| DrainHistory.DrainedIsFinal | go/cascadedelete/drain.go:112-115 | once the drain is over no drain step of any worker, stale or not, changes the object, and it stays over |
| DrainPass.PassIsARun | go/cascadedelete/drain.go:109-183 | one undisturbed RunDrainStep is four steps of the interleaving machine |
| DrainPass.DeadlineEndsDrain | go/cascadedelete/drain.go:122-129 | after 24 hours one pass whose CompleteDrain is answered ends the drain, whatever status, token and engine say |
| DrainPass.DoneEndsDrain | go/cascadedelete/drain.go:117-142 | a terminal or never started run is released by the first pass without errors |
| DrainPass.FreshPassesBounded | go/cascadedelete/drain.go:117-161 | of passes on the newest version, at least the requeue interval apart, at most 24h/requeue leave the finalizer, whatever Progress answers |
| DrainProgress.NoDrainWedges | go/cascadedelete/drain.go:109-161 | in one run of all workers and everybody else, from any reachable state on: while the drain is unfinished, at most 24h/requeue passes over the child have ended without error, on stale reads or fresh ones, whatever fails in between |
| DrainProgress.EndsBeforeDeadline | go/cascadedelete/drain.go:117-161 | a pass on any version, stale ones included, that ends without error and leaves the drain unfinished ends within 24 hours of the deletion |
| DrainLiveness.CancelGoesThrough | go/cascadedelete/drain.go:145-151 | before 24 hours an answered pass on the newest version of a started, running child without the token stores one version with the token (and Spec.Kill for a PipelineRun), raises the gauge, requeues, and reports no error, for either kind |
| DrainLiveness.TriggerRunFinishes | go/components/triggerrun/controller.go:508-519 | the next answered pass of a counted TriggerRun stores the terminal status, then the completed object, lowers the gauge, and is not requeued |
| DrainLiveness.PipelineRunFinishesIff | go/components/pipelinerun/controller.go:365-384 | an answered pass of a counted PipelineRun ends the drain exactly when the engine reports a terminal status; otherwise it persists the report, if it is news, and requeues |
| DrainLiveness.PipelineRunWaitsIff | go/components/pipelinerun/controller.go:365-384 | while the engine reports it running, a pass is requeued exactly if the report is no news or can be stored, and is an error otherwise |
| DrainLiveness.TriggerRunTakesTwoPasses | go/cascadedelete/drain.go:109-161 | two answered passes drain a running TriggerRun and leave the gauge where it was |
| DrainLiveness.CompletionGoesThrough | go/components/triggerrun/controller.go:546-558 | an answered completion of the newest version stores exactly the object without token and finalizer, immutable if retained, or nothing if that was the last finalizer; the gauge is lowered exactly if the token was there |
| DrainLiveness.DoneOrLateCompletes | go/cascadedelete/drain.go:117-129 | terminal, or past 24 hours: completed at once, and forced exactly if not terminal |
| DrainLiveness.NeverStartedCompletes | go/cascadedelete/drain.go:132-142 | never started: a terminal status is stored, then the completed object, without a cancel |
| DrainLiveness.StalePassChangesNothing | go/cascadedelete/drain.go:109-161 | a pass on a version that is not the newest changes neither object nor gauge |
| DrainLiveness.SilenceChangesNothing | go/cascadedelete/drain.go:109-161 | a pass in which nobody answers changes nothing, and is an error exactly if the finalizer is there |
| DrainLiveness.GaugeMovesOnce | go/cascadedelete/drain.go:136-183 | a pass moves the gauge by at most one: up only without the token and with a requeue, down only with it, not at all on an error |
| DrainLiveness.PassesHappen | go/cascadedelete/drain.go:109-161 | any idle worker may take up any child that is being deleted, in its newest version, and what follows is the pass |
| DrainStep.DrainTarget.RequestCancel | go/components/triggerrun/controller.go:491-506 | kills first (TriggerRun) or sets Spec.Kill (PipelineRun), then persists with the token in one update; nothing persisted on any error |
| DrainStep.DrainTarget.Progress | go/components/pipelinerun/controller.go:365-384 | runs the engine and persists the status only if it changed (PipelineRun) or always (TriggerRun); reports terminal exactly when it finishes |
| DrainStep.DrainTarget.MarkKilled | go/components/pipelinerun/controller.go:389-397 | persists a terminal status without engine work and without the token |
| DrainStep.DrainTarget.CompleteDrain | go/components/triggerrun/controller.go:546-558 | one update clears the token, removes the drain finalizer and marks immutable where the kind is retained |
| DrainStep.DrainTarget.Finish | go/cascadedelete/drain.go:169-183 | the gauge goes down exactly if the update committed and the token was there before it |
| DrainStep.DrainTarget.RunDrainStep | go/cascadedelete/drain.go:109-161 | the driver's branches in order do what one pass says: object, gauge, requeue and error |
| DrainStep.EnsureDrainFinalizer | go/components/pipelinerun/controller.go:318-331 | an active run gets the drain finalizer by one up-to-date update, a terminal or protected one is not written; there is an error exactly if a write was needed and the server did not answer or the copy was not the newest |
| NoObjectLost.NoObjectIsLost | go/components/ingester/controller.go:125-374 | once the ingester's finalizer or the object is gone, the row is live, or deletion was requested through the API, or the kind is not retained and was deleted directly |
| NoObjectLost.StepKeeps | go/components/ingester/controller.go:125-374 | every call of the ingester, of the API's delete handler or of anybody else keeps that invariant |
| DeletionOutcomes.DirectDeleteEndState | go/components/ingester/controller.go:201-294 | when the finalizer comes off a directly deleted object, the version was the newest; a retained one has no other finalizer, is gone and its row is that version, another has no live row; no later run undoes it |
| DeletionOutcomes.AnsweredReconcileMirrors | go/components/ingester/controller.go:150-194 | an answered reconcile of the newest version mirrors it into the row; an immutable object then leaves Kubernetes, saved as it was, another is left alone |
| ImmutableRelease.ImmutableReleaseIsSaved | go/components/ingester/controller.go:345-374 | in every run, when the finalizer comes off an immutable object: the version was the newest, neither deleted nor marked, and nothing but the finalizer changes; the row is that version, live unless stamped at birth, by the user, or on a withdrawn request |
| IngesterAnswers.MarkedIsDeleted | go/components/ingester/controller.go:312-342 | an answered reconcile of a marked object stamps its row; if that was live, the object is deleted: now, with foregroundDeletion added exactly if the recorded policy is Foreground, orphan exactly if it is Orphan, and no other new finalizer |
| IngesterAnswers.ImmutableIsMoved | go/components/ingester/controller.go:345-374 | an immutable object is saved, released, and deleted with its recorded policy in the same way |
| IngesterAnswers.MarkedIsReleased | go/components/ingester/controller.go:213-231 | marked and already deleted: exactly the ingester's finalizer comes off, the row is left alone |
| IngesterAnswers.DirectIsStamped | go/components/ingester/controller.go:213-231 | deleted directly and not retained: the row is stamped, then the finalizer comes off |
| IngesterAnswers.RetainedIsSaved | go/components/ingester/controller.go:248-282 | deleted directly and retained: the row becomes this version; the object goes exactly if no other finalizer stands, and is left alone otherwise |
| IngesterAnswers.KeylessGetsKey | go/components/ingester/controller.go:458-472 | without a primary key only that annotation is written |
| IngesterAnswers.OthersAreSaved | go/components/ingester/controller.go:174-194 | any other object is saved in the row and left alone in Kubernetes |
| IngesterAnswers.SilenceChangesNothing | go/components/ingester/controller.go:125-374 | a call that is not answered leaves object and row alone and ends the reconcile |
| IngesterAnswers.StaleWritesFail | go/components/ingester/controller.go:125-374 | removal of the finalizer, primary key and mark are refused from any version but the newest |
| IngesterAnswers.RequestIsRecorded | go/api/handler/handler.go:283-301 | an answered request for a mutable object stores the mark and the caller's policy and nothing else, and leaves the row alone |
| IngesterAnswers.ImmutableRequest | go/api/handler/handler.go:259-311 | a request for an immutable object on its way out, or for one Kubernetes no longer has, stamps a live row; one for an immutable object that is not yet on its way out changes nothing |
| IngesterAnswers.PolicyReachesTheObject | go/components/ingester/controller.go:424-434 | from the request to the stored object: with a live row, the request's policy, and no other, is the one the object is deleted with |
| ApiDelete.ApiHandler.Delete | go/api/handler/handler.go:227-310 | one undisturbed request is the machine's; Unavailable exactly for an immutable object not on its way out; a dry run changes nothing and otherwise succeeds; success exactly if the copy was the newest, or the row live |
| DeletionOutcomes.ApiDeletionProceeds | go/components/ingester/controller.go:312-342 | an answered pass over a marked object starts the Kubernetes delete if and only if its row is live; otherwise it is stuck |
| DeletionOutcomes.StuckForever | go/components/ingester/controller.go:325-328 | a marked object without a live row stays as it is in every run of the ingester and of further API deletes |
| DeletionOutcomes.FailedDeleteSticks | go/components/ingester/controller.go:325-338 | one failed Kubernetes delete after the row's deletion is enough |
| DeletionOutcomes.EarlyDeleteSticks | go/api/handler/handler.go:283-301 | so is an API delete that the ingester sees before its first sync |
| DeletionOutcomes.SafeIffNoTombstone | go/api/handler/handler.go:538-554 | an object is lost in no run if and only if it is not born over a deleted row of its primary key, or is born marked |
| DeletionOutcomes.TombstoneLosesObject | go/storage/mysql/mysql.go:1143-1197 | made immutable, an object born over a deleted row is released by the ingester without a live row |
| IngesterStep.Reconciler.Reconcile | go/components/ingester/controller.go:125-172 | one undisturbed reconcile is exactly the ingester's steps of the machine, on object and row |
| IngesterStep.Reconciler.HandleDeletion | go/components/ingester/controller.go:201-232 | the row is settled before the finalizer is removed, and both only as the branch demands |
| IngesterStep.Reconciler.HandleCascadeDeletion | go/components/ingester/controller.go:248-282 | soft-delete with NotFound allowed, wait while another finalizer stands, or save the final state |
| IngesterStep.Reconciler.HandleDeletionAnnotation | go/components/ingester/controller.go:312-342 | row first, Kubernetes delete only if that succeeded; a committed delete leaves exactly the finalizers of before and that of the recorded policy |
| IngesterStep.Reconciler.HandleImmutableObject | go/components/ingester/controller.go:345-374 | save, release, delete; each only after the one before, the delete with the recorded policy |
| IngesterStep.Reconciler.EnsurePrimaryKey | go/components/ingester/controller.go:458-472 | writes the annotation once, by an up-to-date update, and reports whether it did |
| Lifecycle.DrainRespectsIngester | go/cascadedelete/drain.go:66-88 | no drain call removes the ingester's finalizer or makes its object vanish |
| Lifecycle.IngesterRespectsDrain | go/components/ingester/controller.go:201-374 | neither the ingester nor the API's delete handler touches the token or the drain finalizer |
| Lifecycle.BothStoresAgree | go/components/ingester/controller.go:125-374 | with all controllers on the same objects: the gauge is exact and no object is lost, in every interleaving |
| Lifecycle.GaugeNeverNegative | go/cascadedelete/drain.go:109-183 | the same bound on the gauge with ingesters and API deletes at work on the same objects |
| SchemaDiff.CompatibleIffCovers | go/api/crd/schema_diff.go:49-262 | a change is compatible if and only if every path of the old schema resolves in the new one with the same type |
| SchemaDiff.CompatibilityIsAPreorder | go/api/crd/schema_diff.go:49-262 | compatibility is reflexive and transitive, and holds both ways exactly when the diff is nil |
| SchemaDiff.CompatibleStepwise | go/api/crd/schema_diff.go:110-139 | the compatible methods on a diff say: same type, no property or branch lost, children compatible |
| SchemaDiff.NoDiffStepwise | go/api/crd/schema_diff.go:94-102 | the diff is nil exactly when types, keys, branch counts agree and all child diffs are nil |
| SchemaDiff.DiffContents | go/api/crd/schema_diff.go:49-103 | a diff names both types exactly if they differ, and its parts are those of the properties, the items and the three lists |
| SchemaDiff.PropertiesDiffContents | go/api/crd/schema_diff.go:206-242 | deleted, added and modified properties are exactly the old ones missing, the new ones, and the common ones that differ, each with its schema or diff |
| SchemaDiff.BranchesDiffContents | go/api/crd/schema_diff.go:150-177 | branches are compared by position: the longer list's rest is deleted or added, and modified holds the diffs of exactly the common positions that differ, in order |
| SchemaDiff.NilReadsAsEmpty | go/api/crd/schema_diff.go:49-58 | a missing schema is compared like one that says nothing |
| SchemaCompare.NewSchemaDiff | go/api/crd/schema_diff.go:49-103 | the recursive builder returns the diff of the two schemas |
| SchemaCompare.NewSchemaArrayDiff | go/api/crd/schema_diff.go:150-177 | the loops collect deleted, added and modified branches, or return nil |
| SchemaCompare.NewSchemaObjectDiff | go/api/crd/schema_diff.go:206-242 | visiting the keys in any order yields the same deleted, added and modified maps, or nil |
| CrdGateway.IsSpecChangeCompatible | go/api/crd/schema_diff.go:302-334 | the loop returns an answer that is permitted: one that some visiting order of the versions gives |
| CrdGateway.AnswersAreOrders | go/api/crd/schema_diff.go:302-334 | the permitted answers are exactly the outcomes of the visiting orders |
| CrdGateway.AmbiguousIff | go/api/crd/schema_diff.go:302-334 | an error and a verdict are both possible exactly when one version is missing and another, present in both, does not fit |
| CrdGateway.OneAnswerIff | go/api/crd/schema_diff.go:302-334 | the answer is unique exactly when no version is missing, or one is and all others fit, or the new CRD has no versions |
| CrdGateway.TwoAnswers | go/api/crd/schema_diff.go:302-334 | a concrete pair of CRDs with both answers |
| CrdGateway.VerdictIsDetermined | go/api/crd/schema_diff.go:302-334 | with all old versions present there is one answer: every version's schema is compatible |
| CrdGateway.CompareCRDSchemas | go/api/crd/schema_diff.go:276-300 | a change is reported exactly if versions or conversion differ; no change is compatible, a change gets the verdict, an error comes only with a change and a missing version |
| CrdGateway.CrdServer.ConditionalUpsert | go/api/crd/gateway.go:65-146 | undisturbed it is the Get and the write of a replica; without error the newest stored CRD has the wanted versions and conversion; an error comes exactly when a stored version is missing, a differing CRD is not admitted, or a needed write fails |
| CrdEvolution.CompatibleIffPreserves | go/api/crd/schema_diff.go:302-334 | the verdict is positive exactly when no version is dropped and each schema covers its predecessor |
| CrdEvolution.SafeEvolution | go/api/crd/gateway.go:65-146 | with instances and no override, any two CRDs stored in the same run, however replicas interleave, relate so: all versions kept, every earlier path keeps its type |
| CrdEvolution.OverrideBreaksIt | go/api/crd/gateway.go:117-129 | with the override or without instances any differing CRD is stored; with instances and no override exactly the compatible ones |
| CrdEvolution.OneReplicaWins | go/api/crd/gateway.go:65-146 | of two replicas that read the same CRD only the first to write stores its own |
| CrdEvolution.DeletionIffUnused | go/api/crd/gateway.go:149-162 | a CRD is deleted exactly if it has no instances; after that any CRD can be created, unchecked against the old one |
| SchemaUnfold.ParseMessageField | go/kubeproto/yaml/kubeyaml.go:220-232 | preserves unknown fields exactly for a type on the path, and leaves the shared path as it was |
| SchemaUnfold.ParseMessageFields | go/kubeproto/yaml/kubeyaml.go:234-329 | the loop over a shared path set terminates on every graph, computes the unfolding, and restores the path |
| UnfoldLaws.RootNests | go/kubeproto/yaml/kubeyaml.go:220-232 | objects nest at most one deeper than there are message types |
| UnfoldLaws.PreservedIffEnclosed | go/kubeproto/yaml/kubeyaml.go:160-232 | along any chain of fields through lists and maps, a field preserves unknown fields exactly when its type already encloses it as a field type |
| UnfoldLaws.RootHasItsFields | go/kubeproto/yaml/kubeyaml.go:277-282 | the properties of the root schema are exactly the root's fields other than message fields of the metadata types |
| UnfoldLaws.NestedHasItsFields | go/kubeproto/yaml/kubeyaml.go:234-329 | along any chain through lists and maps, an unfolded message shows exactly its fields, all of them |
| UnfoldLaws.ScalarShows | go/kubeproto/yaml/kubeyaml.go:242-246 | a field of a scalar type shows that type, as it is, in a list, or as the values of a map |
| UnfoldLaws.FieldShape | go/kubeproto/yaml/kubeyaml.go:283-325 | a field shows as an array exactly when repeated and as a map exactly when it is a map field |
| UnfoldPanics.PanicsIffRootLoop | go/kubeproto/yaml/kubeyaml.go:296-301 | with supported scalars and string keys, generation panics if and only if a map field of the root leads back to the root |
| UnfoldPanics.RecursiveMapPanics | go/kubeproto/yaml/kubeyaml.go:296-301 | a root message with a map of itself makes the generator panic |
| ConversionTargets.CollectTargets | go/kubeproto/conversion/version_conversion.go:29-80 | the nested worklist returns exactly the messages reachable from marked ones through fields of the package that are not ignored |
| ConversionTargets.ClosedHasNeeded | go/kubeproto/conversion/version_conversion.go:48-77 | a closed set with all marked messages contains every reachable one |
| ConversionFits.CheckPlain | go/kubeproto/conversion/version_conversion.go:288-487 | the tests before a plain field is written pass exactly on fitting shapes and types; a message is compared under the enclosing message's rename, and between maps the written side's sort decides |
| ConversionFits.CheckMember | go/kubeproto/conversion/version_conversion.go:562-631 | the tests before a member of a oneof is written pass exactly on fitting types |
| ConversionFits.MapsFitBothWaysIff | go/kubeproto/conversion/version_conversion.go:420-486 | both directions together accept two maps exactly when keys and sorts of values agree, names of enums apart |
| ConversionFits.ScalarKeepsItsKind | go/kubeproto/conversion/version_conversion.go:288-487 | outside maps a scalar is accepted exactly against the same Go type in the same shape, in a oneof exactly against the same Go type |
| ConversionFits.SingleAgainstMap | go/kubeproto/conversion/version_conversion.go:320-327 | a single local message is accepted against a map exactly if the map's entry type has the expected name |
| ConversionFits.ForeignKeepsItsType | go/kubeproto/conversion/version_conversion.go:349-369 | a message of another package is accepted exactly against the very same type and shape, in a oneof exactly against the same type |
| ConversionFits.MemberExpects | go/kubeproto/conversion/version_conversion.go:576-588 | a member with a message of the package is accepted exactly against a message of the name its own type is renamed to, or of its own name |
| ConversionFits.EnumMapsOneWay | go/kubeproto/conversion/version_conversion.go:429-480 | on the way to the hub a map of enums takes whatever the spoke map holds; on the way back only enums |
| ConversionFits.MemberCallIsTyped | go/kubeproto/conversion/version_conversion.go:576-588 | an accepted member is exactly one whose Convert functions take the hub member's type |
| ConversionFits.AcceptedIffRightType | go/kubeproto/conversion/version_conversion.go:320-327 | a plain field of the right type is accepted, and an accepted one is of the right type, exactly when the enclosing message's rename and the type's agree |
| ConversionFits.RenamedMessagePanics | go/kubeproto/conversion/version_conversion.go:320-327 | a renamed message holding a local message: its copy on the hub is refused, a field of the wrong type accepted |
| ConversionFits.EnumRenameIgnored | go/kubeproto/conversion/version_conversion.go:91-97 | as the enum option has another name than the one read, an enum is accepted only under its own name, and a renamed one panics |
| ConversionFits.OptionReadCounts | go/kubeproto/conversion/version_conversion.go:91-97 | a rename under the option that is read decides which enum a member is accepted against |
| ConversionCalls.EmitSpokeToHub | go/kubeproto/conversion/version_conversion.go:206-245 | emits, in order, exactly one assignment for every mapped field that is not ignored, each with its Convert call, and one switch for each oneof with mapped members; panics exactly when types do not fit, a oneof straddles, or a hub field is neither mapped nor ignored |
| ConversionCalls.EmitHubToSpoke | go/kubeproto/conversion/version_conversion.go:247-279 | emits, in order, exactly the assignments to the last field of each target, plain from plain and member from member, and the switches back; panics exactly when types of these do not fit or a oneof straddles |
| ConversionCalls.PairGroup | go/kubeproto/conversion/version_conversion.go:499-532 | pairs up the mapped members of a oneof in order, or panics exactly when they do not all go to members of one hub oneof |
| ConversionCalls.BodyAssigns | go/kubeproto/conversion/version_conversion.go:206-279 | plain code and cases together assign exactly the pairs of the direction |
| ConversionCalls.GoesWhereNamed | go/kubeproto/conversion/version_conversion.go:212-225 | a field goes to the hub field of its field_rename_to, or of its own name without one, and to no other, in both directions; on the way to the hub every such pair is assigned |
| ConversionRuns.PlainComesBack | go/kubeproto/conversion/version_conversion.go:206-279 | a plain field that is assigned on the way back gets what its own conversions leave of its value, in every record and whatever else is mapped where |
| ConversionRuns.ComesBack | go/kubeproto/conversion/version_conversion.go:206-279 | if all fields are undisturbed, every mapped field, oneof members included, shows afterwards exactly what its own conversions leave; a nil message member is dropped |
| ConversionRuns.RoundTripIff | go/kubeproto/conversion/version_conversion.go:206-631 | there and back restores the mapped fields of every record exactly when no field is overtaken, no plain field goes into a hub oneof, no two oneofs go to one hub oneof, and each field's conversion is undone; with nil cases, also no message members |
| ConversionRuns.SharedTargetLoses | go/kubeproto/conversion/version_conversion.go:489-560 | two members of a oneof renamed to one hub member: accepted, and the first is lost |
| ConversionRuns.SharedOneofLoses | go/kubeproto/conversion/version_conversion.go:489-560 | two oneofs into one hub oneof: accepted, both directions assign the same pairs, and of two set members one is lost |
| ConversionRuns.ReadBackOnce | go/kubeproto/conversion/version_conversion.go:206-279 | of the fields of a group mapped to one hub field of their sort exactly one is assigned on the way back, the last |
| ConversionRuns.SameAssignmentsIff | go/kubeproto/conversion/version_conversion.go:206-279 | both directions assign the same pairs with the same calls exactly when no field is overtaken and no plain field goes into a hub oneof |
| ConversionResolves.CallsAreTargets | go/kubeproto/conversion/version_conversion.go:320-348 | every message whose Convert function is called from a target's body, in either direction, is a target |
| ConversionResolves.ResolvesIffNoNestedCrd | go/kubeproto/conversion/version_conversion.go:633-745 | with all files of the package generated, the calls in a target's body name generated functions exactly when no assigned field carries a CRD |
| ConversionResolves.NestedCrdDoesNotResolve | go/kubeproto/conversion/version_conversion.go:668-745 | a package in which a mapped field carries a CRD: the call does not resolve, in either direction |
| ConversionResolves.NeededIffDrawnIn | go/kubeproto/conversion/version_conversion.go:48-77 | a message is a target exactly when it is marked or a target has a field of it that is not ignored |
| ConversionResolves.PartResolvesIff | go/kubeproto/conversion/version_conversion.go:669-706 | a CRD's calls for its Spec or Status resolve exactly when that field is of the message named after the CRD, in the package and a generated file, no CRD, and not ignored unless something else draws it in |
| ConversionResolves.UnignoredPartResolvesIff | go/kubeproto/conversion/version_conversion.go:669-706 | for a field that is not ignored, exactly when its message is named after the CRD, in the package and a generated file, and no CRD |
| ConversionResolves.MisnamedStatusDoesNotResolve | go/kubeproto/conversion/version_conversion.go:669-706 | in that package the Spec calls of a CRD resolve, those of a Status of another name do not |

## Left out

- The other generated messages (conditions, typed_struct, the descriptors in options.pb.go), String, GoString, getters, reflection: the same scheme or plumbing.
- types.Any beyond its two declared fields, its unrecognized bytes, and the text of decoding errors (the error kind and its numbers are kept).
- Nil elements in repeated message fields, on which the generated encoders dereference nil.
- ValidationCodec.ValidationMessage.UnmarshalField: the nine string fields, the eleven plain bools and the two oneof cases are one case each, on a record of strings and a set of field numbers.
- ValidationCodec.ValidationMessage.Unmarshal: requires a tree, because with shared nodes its outcome is not the fold; MergeShared says what happens when pointers of one message go to one child, sharing deeper down is not modelled. Size, Marshal and Equal allow any sharing.
- What a decoder leaves in the message when it returns an error.
- DrainStep.DrainTarget.Progress: the workflow engine is an arbitrary answer, and a status is two bits (terminal, started) and an opaque rest.
- Process crashes between a committed update and its metric call, and calls that report an error but took effect: the gauge is declared best-effort across restarts.
- Labels and update timestamps that the API handler adds, drain-duration and timeout metrics, owner references, admission hooks, validation and blob storage.
- ApiDelete.ApiHandler.Delete: with metadata storage off the request is Kubernetes' own delete, which is not modelled.
- IngesterAnswers.PolicyReachesTheObject: a policy other than Foreground, Orphan and Background, which Kubernetes refuses, counts as Background.
- The API handler's fallback to the metadata store when an object is missing in Kubernetes: there `directUpdate` is unimplemented, so an update of a missing object fails, as in the model; its Get fallback appears as a stale read.
- Ingestion.Step: one life of one object; a second object created under the same namespace and name, whose row a delete by name would hit too, is not modelled.
- NoObjectLost.NoObjectIsLost: a user's own delete of an already retained row is an excuse, as is a delete request.
- The TriggerRun action state machine, TTL eviction, status reconstruction beyond its effect on what a drain worker sees, deployment and inference-server controllers.
- CrdGateway.IsSpecChangeCompatible: a version without a Schema, on which the code dereferences nil, is not modelled; nil and empty maps are one.
- Merging CRD versions (mergeCRDVersions), retry with backoff, and CRD deletion beyond its guard by instances.
- SchemaUnfold.ParseMessageFields: comments, formats, enum names and the fixed schemas of well-known and Kubernetes types are one kind of leaf with its JSON type; parseRootSchema's check for spec and status is left out.
- ConversionCalls.EmitField: the Go text around an assignment, proto2 groups, and the panic for a missing hub message.
- ConversionRuns.Convert: converts into a new message; contents are opaque, and what a field's own conversion does to them, a nested Convert call included, is a parameter.
- ConversionResolves.PartResolvesIff: of the hub's side of these calls only the names are modelled, not the hub's own field types, nor that the CRD embeds the field by value.
- gjson and sjson rewriting, tag parsing, configuration, dependency wiring, YARPC, webhooks, metrics registration, and everything not written in Go.
