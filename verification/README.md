# Kairos in Dafny

Kairos is a workflow scheduler with a built-in pub/sub deliverer. This project models the parts of it
whose correctness is least visible from the code and proves what they promise.

**Templates** (`Template`, `Runtime`, `Loops`, `Structured`, `Reach`, `Simulation`, `Nesting`, `Exactness`,
`Scopes`, `Endings`, `Leaks`, `VarTemp`, `Variables`). A broker template is parsed into rows of expressions. `Build` links the rows with a
stack into a jump table; `Execute` runs them with a program counter that jumps forward over blocks and
backward in ranges. The evaluation of one expression is an oracle that may depend on everything that
happened before it (the trace), so no result depends on what expressions compute. A structured program has
a recursive interpreter as its meaning. The main theorem says exactly which programs the flat machine runs
as the interpreter does, for every oracle: those without a range inside a range, where runs can get there
and matter (`Sound`). `Reach` reads off the rows what some run can reach and builds the oracles that get
there, `Simulation` is compiler correctness, `Nesting` and `Exactness` show that every other program goes
wrong under some oracle. `Scopes` counts the scopes that stay open, `Endings` shows that a run which ends
normally has left every range it entered, and `Leaks` says which programs have a run that ends with a scope
open. `Loops` says which templates without a range can run forever. `Variables` replays a trace on the scopes
of `VarTemp`, a heap structure in which two frames may share one variable.

**Wire protocol** (`JsonString`, `Newline`, `Wire`, `Varint`, `BufferPool`). The JSON string escaper is
shown to be inverted by a reader for section 7 of RFC 8259 over UTF-8 as in section 4 of RFC 3629. Newline
and length-prefix framing have round trips for whole frames, `Wire` composes escaping with framing, and
the power-of-two buffer pool never hands out too small a buffer.

**Deliverer** (`Subscriptions`, `Hub`, `Queue`, `Writer`). Subscriptions against the broker are a state
machine whose steps are the sections between two points where another goroutine may come in; broker calls
may fail, and may take effect although they fail. The hub's shards, the ring-buffer queue and the batching
writer are classes; the writer is tied to a state machine over all interleavings.

**Data structures** (`Dag`, `CircBuf`, `CallbackQueue`, `OrderedMap`) and **client life cycles**
(`DaemonClient`, `ServerClient`).

`Common` holds `Option` and bytes. Verify with `dafny verify dfyconfig.toml`.

## Findings

Properties one would expect and the code does not have, with an instance and the exact condition of each.

- A range that ends inside another one is mistaken for it. With an element it restarts the outer range at
  once (`Exactness.NestedRangeRestarts`), without any it makes the machine forget the outer range
  (`Exactness.NestedRangeStopsEarly`). A program is run right under every oracle if and only if it is `Sound`
  (`Exactness.SoundIff`); if every part of it can be reached, if and only if no range is nested
  (`Exactness.UnnestedIff`).
- Scopes stay open. A block that is skipped and has no "else" and a range that fails go on behind their "end"
  row (`Leaks.SkippedBlockLeaks`), and an "if" whose parameters have not the form of a condition opens a second
  scope (`Leaks.FormlessIfLeaks`). In a Sound program these and no others stay open (`Leaks.ScopesOfRun`). In
  others there is one more cause: a range that ends inside an "if" inside another range restarts that one
  without closing the "if" (`Leaks.RestartLeaks`). For every program the rows tell whether some run ends with a
  scope open (`Leaks.LeaksIff`).
- A template that passes the parser and `Build` may never end, although it has no range: a row such as "if | end"
  leaves its block open, and a false "if" without a jump goes to row 1, an "else" without one to row 0
  (`Runtime.OpenBlockLoops`). A row goes forward whatever expressions return if and only if it is not such a
  row (`Runtime.RowGoesForwardIff`), and every run of the template stops if and only if no such row can be
  reached and then reached again from the row it is sent back to (`Loops.EveryRunStopsIff`).
- `AddEdge` never adds an edge, because its existence flags are never set to true: `Dag.Graph.AddEdge`
  says so of every call.
- After `Validate` has reported a cycle, the path it was found on stays marked, and a second call may report
  none. It does exactly when every listed vertex is on that path or leads neither to it nor to a cycle:
  `Dag.ValidateTwice`, with the instance `Dag.SecondValidateForgets`.
- A length prefix can make a decoder panic. The command decoder does exactly when the length is negative as an
  int and the end of the frame wraps around to a position behind the start of the buffer
  (`Varint.CommandPanicsIff`, with the instance `Varint.LengthOfAllOnes`), the reply decoder whenever the frame
  ends outside of the buffer (`Varint.ReplyPanicsIff`), the stream decoder exactly for a length below 2^64 that
  is larger than any slice (`BufferPool.StreamPanicsIff`).
- A refused broker subscription that took effect nevertheless leaves the channel subscribed with nobody to
  dissolve it, exactly when no job was pending for it: `Subscriptions.RefusalLeaksIff`, with the instance
  `Subscriptions.RefusalLeaks`. No other step does: `Subscriptions.StepWatchedIff`.
- A frame whose last newline-framed message is empty loses that message, and only such a frame:
  `Newline.RoundTripIff`, `Newline.StreamRoundTripIff`, with the instance `Newline.EmptyLastIsLost`.
- The size reported by the protobuf stream decoder counts eight bytes for every length prefix, so it is the
  frame's length only for payloads of 2^49 bytes and more: `BufferPool.StreamSizes`, with the instance
  `BufferPool.EmptyMessageSize`.
- An index of connections by user stays consistent when a client is added or removed if and only if the
  client has the user it was first added with: `Hub.AddIndexedIff`, `Hub.RemoveIndexedIff`, and for the
  shards together `Hub.HoldsAddIff`, `Hub.HoldsRemoveIff`, with the instance `Hub.ChangedUserBreaksIndex`.
- `removeSub` answers "empty" for a client that was not subscribed, whether or not the channel has others:
  `Subscriptions.EmptyAnswer`; `Subscriptions.RunKeepsInv` shows that this does no harm.

## Model

| member | source | states |
|---|---|---|
| Template.Stack.Push | pkg/workflow/template.go:1018-1020 | the item is on top, the rest is as before |
| Template.Stack.Pop | pkg/workflow/template.go:1022-1029 | undoes a push; fails exactly on the empty stack and then changes nothing |
| Template.Classify | pkg/workflow/template.go:695-719 | the flags of the loop over a row's expressions give the row's kind |
| Template.Compiler.Build | pkg/workflow/template.go:693-728 | succeeds exactly when no prefix of rows closes or continues more blocks than it opened; the table is well nested even when it fails; on success it is the linker's table |
| Template.LinkAllConcat | pkg/workflow/template.go:693-721 | linking a template in two parts, the second from where the first stopped, is linking it at once |
| Template.LinkAllBalance | pkg/workflow/template.go:693-721 | linking fails exactly when some prefix underflows, and ends with as many open blocks as rows opened minus closed |
| Template.LinkAllKeepsOk | pkg/workflow/template.go:693-721 | every jump goes strictly forward, no two share a source or a target, intervals never cross, and no open block lies inside a closed interval |
| Template.LinkAllSources | pkg/workflow/template.go:693-721 | exactly the opening and continuing rows are jump sources or still open |
| Template.JumpsAreMatches | pkg/workflow/template.go:693-721 | a jump leads to the row that first brings the nesting depth back below its source's, and every row with such a match has that jump; with balanced rows every source has one |
| Runtime.TemplateRuntime.PushElement | pkg/workflow/template.go:899-909 | binding the next element of a range moves the runtime as the machine does |
| Runtime.TemplateRuntime.BeginRange | pkg/workflow/template.go:857-912 | starting a range over a list, including the empty one, moves the runtime as the machine does |
| Runtime.TemplateRuntime.CloseBlock | pkg/workflow/template.go:919-971 | an "end" row leaves the block, goes on to the next element, or ends the range, as the machine does |
| Runtime.TemplateRuntime.Step | pkg/workflow/template.go:814-1009 | one expression: result, jump, suspension, failure and whether the row is left, as the machine's step |
| Runtime.TemplateRuntime.ExecuteRow | pkg/workflow/template.go:806-1010 | one row, with its scope and its pipeline, is one step of the machine |
| Runtime.TemplateRuntime.Execute | pkg/workflow/template.go:788-1012 | if the machine stops, so does the loop, in the same state: trace, program counter, range cells and status |
| Runtime.RunAdd | pkg/workflow/template.go:798-1010 | running a + b rows is running a rows and then b more |
| Runtime.RowGoesForward | pkg/workflow/template.go:798-1010 | a row without a range that does not lack the jump it needs is followed by a later one or ends the run, whatever expressions return |
| Runtime.RowGoesForwardIff | pkg/workflow/template.go:976-1001 | for every row that parser and Build accept: it goes forward under every oracle if and only if it has a jump or is neither an "else" nor, behind row 0, an "if" that can be false |
| Runtime.ClosedIsStraight | pkg/workflow/template.go:693-721 | if every block is closed, every row goes forward |
| Runtime.OpenBlockLoops | pkg/workflow/template.go:982-991 | three rows that Build accepts with a block left open: under an oracle of false conditions the run is live after every number of rows |
| Runtime.StraightStops | pkg/workflow/template.go:798-1010 | a template all of whose rows go forward visits strictly increasing rows and stops after at most as many rows as it has |
| Loops.RowLeads | pkg/workflow/template.go:976-1001 | whatever expressions return, the row that follows is one of those that rows and table tell |
| Loops.RowFollows | pkg/workflow/template.go:976-1001 | each of those does follow under some oracle |
| Loops.StopsFrom | pkg/workflow/template.go:798-1010 | without a row that recurs, every run stops: the rows that lack a jump and still lie ahead become fewer, or the run goes forward |
| Loops.JourneyGoesOn | pkg/workflow/template.go:798-1010 | one oracle leads the run along a path to a recurring row and round it for ever |
| Loops.EveryRunStopsIff | pkg/workflow/template.go:798-1010 | for every template without a range that parser and Build accept: under every oracle the run stops, if and only if no row without the jump it needs can be reached and then reached again from the row it is sent back to |
| Structured.BuildLinksProgram | pkg/workflow/template.go:693-721 | a flattened structured program builds, leaves no block open, and every header, "else" and range jumps to its own "else" or "end" |
| Scopes.ScopeBalance | pkg/workflow/template.go:798-1010 | the interpreter: when a program ends normally, the scopes opened and not closed are exactly the skipped blocks without an "else", the failed ranges and the "if"s that opened a scope by themselves |
| Endings.LoopLeft | pkg/workflow/template.go:919-971 | whatever a range contains, nested ranges included, a run that enters it with no range under way and ends normally leaves it at its "end" row with none under way |
| Leaks.CanFinishIff | pkg/workflow/template.go:833-1001 | for every program, the rows alone tell whether some run of the machine goes to the end: both directions |
| Leaks.LeaksIff | pkg/workflow/func.go:139-186 | for every program, the rows alone tell whether some run of the machine ends normally with a scope left open: both directions |
| Leaks.ScopesOfRun | pkg/workflow/template.go:798-1010 | every run of a Sound program stops, and if it ends normally the scopes left open are exactly the skipped blocks without an "else", the failed ranges and the "if"s that opened a scope by themselves |
| Leaks.SkippedBlockLeaks | pkg/workflow/template.go:987-1001 | a run over a false "if" without an "else" ends with its scope open |
| Leaks.FormlessIfLeaks | pkg/workflow/func.go:163-186 | a run over an "if" with two parameters of which the first is not "ne" skips nothing and ends with a scope open |
| Leaks.RestartLeaks | pkg/workflow/template.go:941-963 | a range inside an "if" inside a range: nothing fails and nothing is skipped, and after nine rows the run has ended with one scope open |
| Simulation.SimProg | pkg/workflow/template.go:788-1012 | from the first row of a part anywhere in a template, outside of ranges, inside one, or where every range fails, the machine reaches the end of the part with the interpreter's trace or stops with the interpreter's status, and its ranges are as the place demands |
| Simulation.SimGuardElse | pkg/workflow/template.go:982-1001 | the same for a block with "else": the taken branch runs, the other does not, the scope is closed once |
| Simulation.SimIterate | pkg/workflow/template.go:919-971 | the same for the rest of a range: the body runs once for each remaining element, in order, with that element bound |
| Simulation.CompilerCorrect | pkg/workflow/template.go:687-1012 | for every Sound program and every oracle: Build accepts its rows and leaves no block open, and Execute with that table stops with the trace and the status of the recursive interpreter |
| Simulation.BuildAndExecute | pkg/workflow/template.go:687-1012 | the same for the imperative compiler and runtime, run one after the other |
| Nesting.LedAstray | pkg/workflow/template.go:919-971 | an oracle that leads the run to a range inside a range with elements left: the machine never stops having done what the interpreter does |
| Exactness.SoundIff | pkg/workflow/template.go:687-1012 | for every structured program: the machine runs it right under every oracle if and only if it is Sound, which the rows alone tell |
| Exactness.UnnestedIff | pkg/workflow/template.go:687-1012 | programs without nested ranges are Sound; where no row returns or suspends and every "else" can be reached, no others are run right |
| Exactness.NestedRangeRestarts | pkg/workflow/template.go:941-963 | an inner range with one element: the machine is back at row 1 with the outer range's second element bound, and the row behind the inner range has not run |
| Exactness.NestedRangeStopsEarly | pkg/workflow/template.go:941-947 | an inner range over nothing: the machine ends without ever binding the outer range's second element |
| Variables.ElementsAreNamed | pkg/workflow/template.go:896-939 | in every run of a Sound program, in every iteration of a range, at every point of its body, key and value variable stand for that element unless the body rebinds them |
| Variables.Perform | pkg/workflow/func.go:272-296 | each event of a run, done on the scopes on the heap, keeps what every name stands for at every depth in step with the replayed trace; it panics exactly when a variable is bound, set or defined and there is no scope |
| Variables.Performed | pkg/workflow/template.go:758-771 | the scopes of a run resolve every name at every depth as replaying its trace tells, and no event panics exactly when there is a scope whenever one is needed |
| Variables.GetAfter | pkg/workflow/template.go:594-608 | looking a name up in the scopes of a run gives the value its trace tells |
| VarTemp.ResolveKnown | pkg/workflow/template.go:594-608 | a name resolves exactly when some scope binds it |
| VarTemp.ReplacedResolves | pkg/workflow/template.go:543-561 | replacing a name's newest binding in each scope changes what that name resolves to and nothing else |
| VarTemp.OpenScopeHidesNothing | pkg/workflow/template.go:563-567 | a freshly opened scope resolves every name as before, so Append and Pop cancel |
| VarTemp.VarTemp.Push | pkg/workflow/template.go:538-541 | adds a variable to the innermost scope, where it is found first |
| VarTemp.VarTemp.Append | pkg/workflow/template.go:563-567 | opens an empty scope on top of the others |
| VarTemp.VarTemp.ClearTop | pkg/workflow/template.go:569-576 | empties the innermost scope; fails exactly when there is none |
| VarTemp.VarTemp.Pop | pkg/workflow/template.go:578-585 | undoes Append; fails exactly when there is no scope |
| VarTemp.VarTemp.GetValue | pkg/workflow/template.go:594-608 | finds the newest binding of the innermost scope that has one, or nothing |
| VarTemp.VarTemp.Set | pkg/workflow/template.go:543-561 | at every depth that remains after any pops the name is unbound or resolves to the new variable, every other name resolves as before, the variables replaced carry the new value too, wherever else they are shared, and no other variable comes in |
| JsonString.RuneRoundTrip | pkg/protocol/deliverprotocol/encode_writer.go:136-145 | what UTF-8 decoding yields is a scalar value, and encoding it again gives the bytes back |
| JsonString.RunesAreScalars | pkg/protocol/deliverprotocol/encode_writer.go:136-145 | the characters of any byte string are scalar values |
| JsonString.RunesEncode | pkg/protocol/deliverprotocol/encode_writer.go:136-145 | well-formed UTF-8 is recovered from its characters |
| JsonString.ReadsEscape | pkg/protocol/deliverprotocol/encode_writer.go:99-169 | reading an escaped body up to its closing quote gives the characters of the input, each invalid byte read as U+FFFD |
| JsonString.RoundTrip | pkg/protocol/deliverprotocol/encode_writer.go:99-169 | for every byte string, with and without HTML escaping, the JSON string read back is the input's characters, each invalid byte as U+FFFD, and its first unescaped quote is the closing one; for well-formed UTF-8 it is the input |
| JsonString.OutputBytes | pkg/protocol/deliverprotocol/encode_writer.go:171-380 | no control byte inside the output, and with HTML escaping none of the three HTML characters |
| JsonString.NoSeparators | pkg/protocol/deliverprotocol/encode_writer.go:146-162 | the output never holds U+2028 or U+2029 in raw form |
| JsonString.Writer.String | pkg/protocol/deliverprotocol/encode_writer.go:99-169 | the loop with its two cursors appends the quoted escape of the input and leaves what was written before |
| Newline.CountsMessages | pkg/protocol/deliverprotocol/decode.go:26-39 | counting newlines, but not a last one, gives the number of messages that Decode cuts out |
| Newline.RoundTripIff | pkg/protocol/deliverprotocol/decode.go:57-95 | for newline-free messages, cutting their joined frame gives them back if and only if the last one is not empty |
| Newline.EmptyLastIsLost | pkg/protocol/deliverprotocol/decode.go:57-95 | a message and an empty one after it are cut as one message that ends in a newline |
| Newline.DataEncoder.Encode | pkg/protocol/deliverprotocol/encode.go:341-348 | the buffer stays the newline-separated join of all messages encoded |
| Newline.DataEncoder.Finish | pkg/protocol/deliverprotocol/encode.go:351-356 | yields that join |
| Newline.CommandDecoder.constructor | pkg/protocol/deliverprotocol/decode.go:26-39 | counts the messages and starts before the first |
| Newline.CommandDecoder.Decode | pkg/protocol/deliverprotocol/decode.go:57-95 | the k-th call yields the k-th message, with EOF on the last; empty input, exhausted input and messages that do not unmarshal give their own errors |
| Newline.ChunksFlatten | pkg/protocol/deliverprotocol/decode_stream.go:58-77 | the chunks read from a stream are the whole stream and their sizes add up to its length |
| Newline.StreamRoundTripIff | pkg/protocol/deliverprotocol/decode_stream.go:58-77 | a stream of joined newline-free messages is read as those messages with their newlines if and only if the last is not empty; the sizes always add up to the frame |
| Newline.StreamDecoder.Decode | pkg/protocol/deliverprotocol/decode_stream.go:58-77 | consumes exactly one chunk and reports its size, or EOF at the end |
| Wire.TextIsSingleLine | pkg/protocol/deliverprotocol/encode_writer.go:99-169 | a JSON string as written holds no newline, so it can be framed by newlines |
| Wire.StringsThroughFrame | pkg/protocol/deliverprotocol/encode.go:341-356 | any list of byte strings, escaped, joined and cut again by either decoder, reads back as the characters of each, in order |
| Varint.PutLength | pkg/protocol/deliverprotocol/encode.go:369-375 | a number takes at most k bytes exactly when it is below 128^k |
| Varint.PutUvarint | pkg/protocol/deliverprotocol/encode.go:369-375 | writes the base-128 digits into the array, and overruns it exactly when it is shorter than they are |
| Varint.GetsPut | pkg/protocol/deliverprotocol/decode.go:118-130 | from any position and with any accumulated value, the digits of a number are read back if it fits into the bits left of 64, and reported as an overflow otherwise |
| Varint.ReadsVarintIff | pkg/protocol/deliverprotocol/decode.go:118-130 | a varint is read back if and only if its value is below 2^64 |
| Varint.DataEncoder.Encode | pkg/protocol/deliverprotocol/encode.go:369-388 | appends one frame, and panics exactly for payloads of 2^56 bytes and more, which the eight-byte prefix cannot hold |
| Varint.ReadsFrame | pkg/protocol/deliverprotocol/decode.go:118-143 | in a concatenation of frames the k-th offset is where the k-th length is read and the k-th payload is cut, and it leads to the next |
| Varint.DecodesFrame | pkg/protocol/deliverprotocol/decode.go:118-143 | at the k-th offset both decoders yield the k-th payload and move to the next offset; the command decoder reports EOF exactly with the last |
| Varint.CommandDecoder.Decode | pkg/protocol/deliverprotocol/decode.go:118-143 | the decoder object moves as the specification does, in every case: end, short buffer, overflowed length, negative slice, bad message |
| Varint.CommandPanicsIff | pkg/protocol/deliverprotocol/decode.go:118-143 | at every offset of every buffer, the command decoder panics if and only if the length is negative as an int and the frame's end wraps around to a position behind the buffer's start |
| Varint.ReplyPanicsIff | pkg/protocol/deliverprotocol/decode.go:204-217 | the reply decoder panics if and only if the frame ends outside of the buffer, or an overflow is reported with fewer bytes before it |
| Varint.LengthOfAllOnes | pkg/protocol/deliverprotocol/decode.go:118-143 | nine bytes 0xFF and a byte 0x01 make the command decoder panic |
| Varint.DecodeAll | pkg/protocol/deliverprotocol/decode.go:118-143 | calling Decode until EOF returns exactly the payloads that were framed, in order |
| BufferPool.NextLogIsCeiling | pkg/protocol/deliverprotocol/bpool.go:38-40 | the smallest power of two not below the length, within the pools |
| BufferPool.PrevLogIsFloor | pkg/protocol/deliverprotocol/bpool.go:43-49 | the largest power of two not above the capacity, within the pools |
| BufferPool.NextLogFitsIff | pkg/protocol/deliverprotocol/bpool.go:38-40 | the bucket exists exactly for lengths from 1 to the largest pooled one |
| BufferPool.Pools.GetByteBuffer | pkg/protocol/deliverprotocol/bpool.go:52-70 | for every length, negative ones included: exactly when it panics; otherwise, whatever the pool returns, the buffer is empty and its capacity is at least the length asked for; every pooled buffer in bucket i keeps a capacity in [2^i, 2^(i+1)) |
| BufferPool.Pools.PutByteBuffer | pkg/protocol/deliverprotocol/bpool.go:73-81 | the buffer, emptied, goes into the bucket of its capacity; unusable capacities change nothing |
| BufferPool.StreamDecodesFrame | pkg/protocol/deliverprotocol/decode_stream.go:91-112 | a frame at the head of the stream is read as its payload and leaves the rest of the stream |
| BufferPool.StreamSizes | pkg/protocol/deliverprotocol/decode_stream.go:91-112 | the reported size is never below the frame's length and equals it exactly for payloads of 2^49 bytes and more |
| BufferPool.EmptyMessageSize | pkg/protocol/deliverprotocol/decode_stream.go:91-112 | an empty message is framed in one byte and reported with eight |
| BufferPool.StreamPanicsIff | pkg/protocol/deliverprotocol/decode_stream.go:91-112 | whatever follows it, a length makes the decoder panic if and only if it is read and no slice is that large |
| BufferPool.StreamDecoder.Decode | pkg/protocol/deliverprotocol/decode_stream.go:91-112 | reads one frame through a pooled buffer whose reslice is always in range and returns the buffer to a pool that stays valid; end of stream, unexpected end, overflow, a length that no slice can have and bad messages each have their own result |
| Subscriptions.RunKeepsInv | server/deliverer/node.go:467-515 | over every run: no two goroutines in one lock, no empty hub entry, a goroutine waiting as first subscriber is the only one, every channel with subscribers is at the broker or being subscribed |
| Subscriptions.StepWatchedIff | server/deliverer/node.go:467-515 | a channel that is watched by a job if it is abandoned stays so with every step, if and only if the step is not a refusal of this channel that took effect with no job pending |
| Subscriptions.SubscribedIsWatched | server/deliverer/node.go:467-483 | a subscription that succeeds makes up for an earlier leak |
| Subscriptions.SubscribersAreServed | server/deliverer/node.go:467-483 | in every reachable state a channel with subscribers whose lock is free is subscribed at the broker |
| Subscriptions.AbandonedAreWatched | server/deliverer/node.go:485-515 | in every run, a channel subscribed at the broker without subscribers has a pending dissolve job, whichever calls failed and whatever happened to other channels, unless a refusal of this very channel has leaked since it was last watched |
| Subscriptions.PendingStays | server/deliverer/internal/dissolve/dissolve.go:27-54 | while the dissolver is open, a pending job is lost only by a successful unsubscribe or by finding a subscriber |
| Subscriptions.RefusalLeaksIff | server/deliverer/node.go:467-483 | undoing a refused subscription leaves the channel at the broker with no job if and only if this call or an earlier one took effect and no job was pending |
| Subscriptions.RefusalLeaks | server/deliverer/node.go:467-483 | a run of three steps that gets there |
| Subscriptions.EmptyAnswer | server/deliverer/hub.go:463-484 | removing takes exactly the client out and touches no other channel; "empty" is answered of a channel that still has subscribers exactly when the client was not one of them |
| Hub.AddIndexedIff | server/deliverer/hub.go:376-390 | after adding, the user index is the grouping of connections by user, without empty groups, if and only if the id was new or had the same user |
| Hub.RemoveIndexedIff | server/deliverer/hub.go:392-415 | the same for removing |
| Hub.ChangedUserBreaksIndex | server/deliverer/hub.go:376-415 | a client id that is added or removed with another user than before leaves a wrong entry behind |
| Hub.ConnShard.Add | server/deliverer/hub.go:376-390 | the client is in the connections and in its user's group |
| Hub.ConnShard.Remove | server/deliverer/hub.go:392-415 | the client is gone from both, and with the last client of a user the group |
| Hub.ConnShard.NumClients | server/deliverer/hub.go:417-425 | adding up the groups counts the connections |
| Hub.ConnShard.NumUsers | server/deliverer/hub.go:427-431 | the number of distinct users among the connections |
| Hub.ConnShard.UserConnections | server/deliverer/hub.go:355-374 | exactly the connections of that user |
| Hub.HoldsAddIff | server/deliverer/hub.go:66-70 | shards that are a correctly indexed partition of all connections by the hash of the user stay so if and only if no connection of another user has the client's id |
| Hub.HoldsRemoveIff | server/deliverer/hub.go:72-76 | the same for removing |
| Hub.Hub.Add | server/deliverer/hub.go:66-70 | the shard of the client's user changes and no other; the hub stays valid if and only if no connection of another user has the client's id |
| Hub.Hub.Remove | server/deliverer/hub.go:72-76 | the same |
| Hub.Hub.Connections | server/deliverer/hub.go:78-88 | all connections |
| Hub.Hub.NumClients | server/deliverer/hub.go:138-144 | the number of all connections |
| Hub.Hub.NumUsers | server/deliverer/hub.go:146-153 | the number of distinct users: no user is counted in two shards |
| Hub.Hub.UserConnections | server/deliverer/hub.go:90-92 | all connections of the user, from one shard |
| Hub.SubShard.AddSub | server/deliverer/hub.go:446-461 | the client is a subscriber; the flag says whether it is the channel's first |
| Hub.SubShard.RemoveSub | server/deliverer/hub.go:463-484 | the shard moves as the subscription protocol's step does |
| Hub.SubShard.NumSubscribers | server/deliverer/hub.go:570-578 | the number of the channel's subscribers, zero for an unknown one |
| Queue.Queue.constructor | server/deliverer/internal/queue/queue.go:41-48 | an open, empty queue |
| Queue.Queue.Resize | server/deliverer/internal/queue/queue.go:27-39 | the same items in the same order, now at the start of a new ring |
| Queue.Queue.Add | server/deliverer/internal/queue/queue.go:98-114 | appends, growing a full ring; refused exactly when closed |
| Queue.Queue.Remove | server/deliverer/internal/queue/queue.go:65-82 | takes the oldest item, shrinking a sparse ring; fails exactly when empty |
| Queue.Queue.Len | server/deliverer/internal/queue/queue.go:91-96 | the number of items |
| Queue.Queue.Size | server/deliverer/internal/queue/queue.go:116-121 | the counter kept by Add and Remove is the total size of the items |
| Queue.Queue.CloseRemaining | server/deliverer/internal/queue/queue.go:123-142 | returns all items in order and leaves the queue closed and empty |
| Queue.Queue.Close | server/deliverer/internal/queue/queue.go:144-152 | leaves the queue closed and empty |
| Writer.CollectMoves | server/deliverer/writer.go:94-118 | collecting a frame moves items from the front of the queue to its end, keeps arrivals in order, and never exceeds a frame limit |
| Writer.BatchMoves | server/deliverer/writer.go:64-131 | one send takes a prefix of queue and arrivals as its frame; no item is lost, repeated or reordered |
| Writer.DeliversPrefix | server/deliverer/writer.go:53-151 | in every interleaving the frames flattened are a prefix of the accepted items, frames respect their limit, and what is missing is exactly what is queued or was dropped at close |
| Writer.ClosedForGood | server/deliverer/writer.go:133-151 | after a close nothing is accepted or sent any more |
| Writer.FlushDeliversAll | server/deliverer/writer.go:133-151 | a close with flush hands over everything accepted before it, and nothing is lost later |
| Writer.Writer.Enqueue | server/deliverer/writer.go:53-62 | accepts the item unless closed; reports a closed connection and a queue over its limit exactly then |
| Writer.Writer.CollectFrame | server/deliverer/writer.go:94-118 | the loop over the queue, with items arriving between two removals, collects what the state machine collects; its early return is dead code |
| Writer.Writer.SendMessages | server/deliverer/writer.go:64-131 | one call is one batch step, and whether the loop goes on follows from the queue, the closed flag and the transport's answer |
| Writer.Writer.Close | server/deliverer/writer.go:133-151 | one close step: the remaining items are handed over or dropped, once |
| Dag.FindsStep | pkg/dag/dag.go:69-80 | a trip back to the current path starts with an edge to it or with an edge from which such a trip goes on |
| Dag.FindsCycle | pkg/dag/dag.go:69-80 | with no marks, the search succeeds if and only if a cycle is reachable |
| Dag.FindsMarked | pkg/dag/dag.go:69-80 | from an unmarked vertex the search succeeds if and only if a marked vertex or a cycle is reachable |
| Dag.Graph.AddVertex | pkg/dag/dag.go:28-36 | each vertex is listed once; a second one is refused |
| Dag.Graph.AddEdge | pkg/dag/dag.go:38-67 | always fails with the same error and changes nothing |
| Dag.Graph.HasCycle | pkg/dag/dag.go:69-80 | finds a trip back to the path exactly when there is one; then a walk from the vertex through unmarked ones, none twice, stays marked, and nothing else; without one all marks are as before; terminates by the vertices not on the path |
| Dag.Graph.Validate | pkg/dag/dag.go:82-91 | reports a cycle if and only if one is reachable from a listed vertex, when no marks are set; the exact answer for any marks; the path of the search that found one stays marked, otherwise the marks are as before |
| Dag.ValidateTwice | pkg/dag/dag.go:82-91 | after the first call has reported a cycle, the second reports none if and only if every listed vertex is on the path left marked or reaches neither that path nor a cycle |
| Dag.SecondValidateForgets | pkg/dag/dag.go:82-91 | a graph with a cycle for which the second call reports none |
| CircBuf.WriteShows | pkg/circbuf/circbuf.go:27-48 | a ring that shows the last bytes of a history shows those of the longer history once a write's last bytes are laid at the cursor |
| CircBuf.Buffer.CopyIn | pkg/circbuf/circbuf.go:38-43 | the two copies lay the bytes at the cursor, around the end, and leave the others |
| CircBuf.Buffer.Write | pkg/circbuf/circbuf.go:27-48 | extends the history by what was written, also beyond the buffer's size, and reports its whole length |
| CircBuf.Buffer.Bytes | pkg/circbuf/circbuf.go:62-74 | the last min(total, size) bytes written since the last reset, in order |
| CircBuf.Buffer.Reset | pkg/circbuf/circbuf.go:77-80 | forgets the history |
| CallbackQueue.RunsInOrder | pkg/cbqueue/cbqueue.go:21-67 | in every interleaving the callbacks run are a prefix of those pushed before the first close, all of them once the dispatcher has stopped or has nothing left |
| CallbackQueue.Queue.PushOrClose | pkg/cbqueue/cbqueue.go:45-63 | appends to the linked list, whose tail stays the last node reachable from its head; nil callbacks are refused unless closing |
| CallbackQueue.Queue.TakeFirst | pkg/cbqueue/cbqueue.go:21-32 | unlinks the oldest entry; head and tail become nil together |
| CallbackQueue.Queue.PushAll | pkg/cbqueue/cbqueue.go:41-63 | entries pushed one after another come behind those queued, in order |
| CallbackQueue.Queue.Dispatch | pkg/cbqueue/cbqueue.go:21-39 | with any entries arriving before each round: runs each callback once in push order up to the first close and nothing behind it, returns exactly when there is a close, and is left waiting only on an empty queue |
| OrderedMap.Pigeonhole | pkg/orderedmap/orderedmap.go:33-46 | a sequence with as many distinct elements as places repeats none |
| OrderedMap.OrderLists | pkg/orderedmap/orderedmap.go:33-46 | an order as long as the map that holds all its keys lists its domain without repetition |
| OrderedMap.OrderedMap.FromMapWithOrder | pkg/orderedmap/orderedmap.go:33-46 | accepts an order if and only if it lists the domain without repetition |
| OrderedMap.OrderedMap.Set | pkg/orderedmap/orderedmap.go:52-60 | a known key keeps its place, a new one comes last, and the keys stay a duplicate-free listing of the domain |
| OrderedMap.OrderedMap.Values | pkg/orderedmap/orderedmap.go:88-94 | the values in key order |
| OrderedMap.OrderedMap.Merge | pkg/orderedmap/orderedmap.go:96-110 | old keys stay in place, the other map's new keys follow in its order, and its values win |
| DaemonClient.NextKeeps | kairos-local/kairosdeamon/pubsub/client.go:247-424 | every step keeps the invariant, never takes back a fired future, never leaves Closed, and enters Connected from Connecting by a connect reply only |
| DaemonClient.LifeCycle | kairos-local/kairosdeamon/pubsub/client.go:1121-1157 | in every run: Closed is absorbing, Connected and Disconnected clients have no future waiting, no future fires twice, and each one asked for waits or has fired |
| DaemonClient.Client.ResolveConnectFutures | kairos-local/kairosdeamon/pubsub/client.go:1121-1127 | fires each pending future exactly once, in any order, and leaves none |
| DaemonClient.Client.StartConnecting | kairos-local/kairosdeamon/pubsub/client.go:908-922 | is the start step of the life cycle |
| DaemonClient.Client.MoveToConnecting | kairos-local/kairosdeamon/pubsub/client.go:309-322 | is the reconnect step of the life cycle |
| DaemonClient.Client.MoveToDisconnected | kairos-local/kairosdeamon/pubsub/client.go:247-261 | is the disconnect step of the life cycle |
| DaemonClient.Client.MoveToClosed | kairos-local/kairosdeamon/pubsub/client.go:380-386 | is the close step: waiting futures are left to their timers |
| DaemonClient.Client.ConnectReply | kairos-local/kairosdeamon/pubsub/client.go:803-815 | is the step of a connect answer, which is ignored unless connecting |
| DaemonClient.Client.OnConnect | kairos-local/kairosdeamon/pubsub/client.go:1129-1157 | fires at once or waits, as the state demands |
| DaemonClient.Client.Timeout | kairos-local/kairosdeamon/pubsub/client.go:1144-1154 | fires the future only if it still waits |
| ServerClient.ConnectCompleted | server/deliverer/client.go:965-977 | a client that is or was connected had a connect that completed |
| ServerClient.HandlersPair | server/deliverer/client.go:605-669 | in every run each handler runs at most once, the disconnect handler only when closed, after the connect handler has returned or after a connect without one |
| ServerClient.ClosedStays | server/deliverer/client.go:605-669 | a closed client stays closed and no connect handler starts later |
| ServerClient.Client.TriggerConnect | server/deliverer/client.go:965-977 | connecting is the connect step followed by the handler's return |
| ServerClient.Client.Close | server/deliverer/client.go:605-669 | closing is its two steps in a row; a second close does nothing |

## Left out

- Simulation.CompilerCorrect: leaves out "elseif", "break", an "else" on a range, pipelines behind "range", "else" and "end", and resuming after "sendsync"; a false "elseif" has no jump.
- Runtime.StraightStops: asks that rows have the shape which the parser gives them in restricted mode; when such templates stop is exact, see Loops.EveryRunStopsIff.
- Runtime.TemplateRuntime.Execute: takes the number of rows until the machine stops as a ghost argument, because a template may loop for ever; Simulation.CompilerCorrect and Runtime.StraightStops supply it.
- Variables.Perform: of "define" it models the name, not the type's initial value.
- Subscriptions.AbandonedAreWatched: holds while the dissolver is open, since closing it drops jobs.
- Subscriptions.SubscribersAreServed: a broker that loses subscriptions by itself is not modelled.
- Subscriptions.RunKeepsInv: node.go is modelled on values as a state machine over lock sections, not as methods; the delay before a job runs is any number of steps, and the dissolver's own ring queue is a sequence.
- Hub.Hub.Add: the hash is any function into the 64 shards, not FNV.
- Writer.Writer.SendMessages: the write delay, its timer and the default frame limit of run are left out; the limit is a parameter, and what arrives between two removals is given as data.
- BufferPool.Pools.GetByteBuffer: which pooled buffer is reused, and the largest slice that can be made, are parameters.
- CircBuf.Buffer.Write: the 64-bit count of bytes written does not overflow in the model.
- Varint.DecodesFrame: unmarshalling a payload is a predicate, and frames are shorter than 2^63 bytes.
- CallbackQueue.Queue.Dispatch: what arrives before each round is given as data; where the source would wait for ever on an empty queue it returns and says so. The delay passed to callbacks is left out.
- DaemonClient.LifeCycle: only connect futures are modelled; request callbacks, reconnect timers and subscriptions are not.
- ServerClient.HandlersPair: unsubscribing, presence and the transport's own closing are left out of close.
- What a call, a condition or a range expression computes is an oracle over the trace; that it looks its variables up as Variables.GetAfter says is not used.
- Text is not parsed into rows; rows are given.
- JSON and protobuf marshalling of commands, replies and pushes: thin layers over generated code.
- Runner, agent, storage, plugins, transports, cron, UI, CLI and configuration: plumbing around libraries.
