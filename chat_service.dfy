/**
 * The mobile chat client's message sending
 * (baby-sleep-native-fixed/src/services/chatService.ts): a streamed reply is
 * read chunk by chunk, cut into '\n'-terminated lines, and every line of the
 * form "data: <json>" is handled on its own until one carries `done`.
 * JSON.parse is a parameter; the network is given as the replies it returns.
 */
module ChatService {
  import opened Wrappers
  import opened Text
  import NV = NativeValidation

  /**
   * What JSON.parse makes of a payload, reduced to the fields the client
   * reads. A string field is "" when missing or falsy; conversation_id is
   * None when null or missing.
   */
  datatype Payload =
    | Unparsable
    | Fields(error: string, title: string, chunk: string, done: bool, conversationId: Option<int>)

  /** One onChunk(chunk, fullResponse) call. */
  datatype Call = Call(chunk: string, fullResponse: string)

  /** The loop's variables: fullResponse, conversationIdResult, conversationTitleResult, the onChunk calls so far, and whether `done` was seen. */
  datatype Acc = Acc(full: string, convId: Option<int>, title: string, calls: seq<Call>, done: bool)

  /** The { response, conversation_id, conversation_title } result. */
  datatype ChatResponse = ChatResponse(response: string, conversationId: Option<int>, title: Option<string>)

  /** How the reader ends after the given chunks: reporting done, or throwing. */
  datatype Ending = Closed | Broken

  datatype StreamOutcome = Finished(resp: ChatResponse, calls: seq<Call>) | ReadFailed(calls: seq<Call>)

  function Start(callerId: Option<int>): Acc { Acc([], callerId, [], [], false) }

  /** line.startsWith('data: '), spelt out character by character. */
  predicate HasDataPrefix(line: string) {
    |line| >= 6 && line[0] == 'd' && line[1] == 'a' && line[2] == 't' && line[3] == 'a' && line[4] == ':' && line[5] == ' '
  }

  /** The JSON text of a line the loop parses; None for the lines it skips. */
  function DataText(line: string): Option<string> {
    if JsTrim(line) == [] then None
    else if !HasDataPrefix(line) then None
    else
      var js := JsTrim(line[6..]);
      if js == [] then None else Some(js)
  }

  /** A truthy conversation_id: present and non-zero. */
  predicate TruthyId(id: Option<int>) { id.Some? && id.value != 0 }

  /**
   * The body of the try block for one parsed payload. An error field throws
   * before anything is assigned, and the catch goes on with the next line.
   */
  function OnPayload(a: Acc, p: Payload): Acc {
    match p
    case Unparsable => a
    case Fields(error, title, chunk, done, id) =>
      if error != [] then a
      else
        var t := if title != [] then title else a.title;
        var full := if chunk != [] then a.full + chunk else a.full;
        var calls := if chunk != [] then a.calls + [Call(chunk, full)] else a.calls;
        if done then Acc(full, if TruthyId(id) then id else a.convId, t, calls, true)
        else Acc(full, a.convId, t, calls, false)
  }

  /** One iteration of the inner `for (const line of lines)`; nothing happens once done. */
  function OnLine(a: Acc, line: string, parse: string -> Payload): Acc {
    if a.done then a
    else match DataText(line)
      case None => a
      case Some(js) => OnPayload(a, parse(js))
  }

  /** The handler applied to each line in turn. */
  function RunLines(a: Acc, lines: seq<string>, parse: string -> Payload): Acc
    decreases |lines|
  {
    if lines == [] then a else RunLines(OnLine(a, lines[0], parse), lines[1..], parse)
  }

  function Finish(a: Acc): ChatResponse {
    ChatResponse(a.full, a.convId, if a.title == [] then None else Some(a.title))
  }

  /** The chunks concatenated, as the buffer sees them. */
  function Concat(chunks: seq<string>): string
    decreases |chunks|
  {
    if chunks == [] then [] else Concat(chunks[..|chunks| - 1]) + chunks[|chunks| - 1]
  }

  /** The result of reading the whole stream: every '\n'-terminated line of the text is handled. */
  function StreamResult(chunks: seq<string>, ending: Ending, callerId: Option<int>, parse: string -> Payload): StreamOutcome {
    var a := RunLines(Start(callerId), Init(Split(Concat(chunks), '\n')), parse);
    if a.done || ending == Closed then Finished(Finish(a), a.calls) else ReadFailed(a.calls)
  }

  // ---------------------------------------------------------------- the read loop

  /**
   * The `while (true)` read loop and the `for` loop over lines. The buffer
   * always holds the unterminated tail of the text read so far, and the
   * variables always equal the fold of the line handler over the lines
   * completed so far.
   */
  method ConsumeStream(chunks: seq<string>, ending: Ending, callerId: Option<int>, parse: string -> Payload)
    returns (out: StreamOutcome)
    ensures out == StreamResult(chunks, ending, callerId, parse)
  {
    var buffer: string := [];
    var acc := Start(callerId);
    var n := 0;
    while n < |chunks|
      invariant 0 <= n <= |chunks|
      invariant buffer == Last(Split(Concat(chunks[..n]), '\n'))
      invariant acc == RunLines(Start(callerId), Init(Split(Concat(chunks[..n]), '\n')), parse)
      invariant !acc.done
    {
      ReadStep(chunks, n);
      RunLinesAppend(Start(callerId), Init(Split(Concat(chunks[..n]), '\n')), Init(Split(buffer + chunks[n], '\n')), parse);
      buffer := buffer + chunks[n];
      var lines := Split(buffer, '\n');
      buffer := Last(lines);
      acc := HandleLines(acc, Init(lines), parse);
      if acc.done {
        EarlyReturn(chunks, n, ending, callerId, parse);
        return Finished(Finish(acc), acc.calls);
      }
      n := n + 1;
    }
    assert chunks[..n] == chunks;
    if ending == Broken {
      return ReadFailed(acc.calls);
    }
    return Finished(Finish(acc), acc.calls);
  }

  /**
   * The `for (const line of lines)` loop: each line is handled in turn, and
   * the loop stops at the first `done`. Stopping changes nothing, since the
   * handler leaves a finished state alone.
   */
  method HandleLines(a: Acc, lines: seq<string>, parse: string -> Payload) returns (r: Acc)
    ensures r == RunLines(a, lines, parse)
  {
    r := a;
    var i := 0;
    while i < |lines|
      invariant 0 <= i <= |lines|
      invariant r == RunLines(a, lines[..i], parse)
    {
      RunLinesSnoc(a, lines, i, parse);
      r := OnLine(r, lines[i], parse);
      if r.done {
        RunLinesStopped(a, lines, i + 1, parse);
        return;
      }
      i := i + 1;
    }
    assert lines[..i] == lines;
  }

  lemma RunLinesSnoc(a: Acc, lines: seq<string>, i: nat, parse: string -> Payload)
    requires i < |lines|
    ensures RunLines(a, lines[..i + 1], parse) == OnLine(RunLines(a, lines[..i], parse), lines[i], parse)
  {
    assert lines[..i + 1] == lines[..i] + [lines[i]];
    RunLinesAppend(a, lines[..i], [lines[i]], parse);
    assert [lines[i]][1..] == [];
  }

  lemma RunLinesStopped(a: Acc, lines: seq<string>, i: nat, parse: string -> Payload)
    requires i <= |lines|
    requires RunLines(a, lines[..i], parse).done
    ensures RunLines(a, lines, parse) == RunLines(a, lines[..i], parse)
  {
    assert lines == lines[..i] + lines[i..];
    RunLinesDoneThen(a, lines[..i], lines[i..], parse);
  }

  lemma RunLinesDoneThen(a: Acc, xs: seq<string>, ys: seq<string>, parse: string -> Payload)
    requires RunLines(a, xs, parse).done
    ensures RunLines(a, xs + ys, parse) == RunLines(a, xs, parse)
  {
    RunLinesAppend(a, xs, ys, parse);
    RunLinesAfterDone(RunLines(a, xs, parse), ys, parse);
  }

  /** Reading chunk n: the new lines are those completed in the old buffer plus the chunk, and the new buffer is what follows them. */
  lemma ReadStep(chunks: seq<string>, n: nat)
    requires n < |chunks|
    ensures var old_ := Concat(chunks[..n]); var buf := Last(Split(old_, '\n'));
      Init(Split(Concat(chunks[..n + 1]), '\n')) == Init(Split(old_, '\n')) + Init(Split(buf + chunks[n], '\n'))
      && Last(Split(Concat(chunks[..n + 1]), '\n')) == Last(Split(buf + chunks[n], '\n'))
  {
    ConcatSnoc(chunks, n);
    SplitAppend(Concat(chunks[..n]), chunks[n], '\n');
    InitSplitAppend(Concat(chunks[..n]), chunks[n], '\n');
  }

  /** Handling two line lists is handling the first, then the second. */
  lemma {:induction false} RunLinesAppend(a: Acc, xs: seq<string>, ys: seq<string>, parse: string -> Payload)
    ensures RunLines(a, xs + ys, parse) == RunLines(RunLines(a, xs, parse), ys, parse)
    decreases |xs|
  {
    if xs == [] {
      assert xs + ys == ys;
    } else {
      assert (xs + ys)[0] == xs[0];
      assert (xs + ys)[1..] == xs[1..] + ys;
      RunLinesAppend(OnLine(a, xs[0], parse), xs[1..], ys, parse);
    }
  }

  /** Lines after `done` change nothing. */
  lemma {:induction false} RunLinesAfterDone(a: Acc, ys: seq<string>, parse: string -> Payload)
    requires a.done
    ensures RunLines(a, ys, parse) == a
    decreases |ys|
  {
    if ys != [] {
      RunLinesAfterDone(a, ys[1..], parse);
    }
  }

  predicate IsPrefix(xs: seq<string>, ys: seq<string>) { |xs| <= |ys| && ys[..|xs|] == xs }

  lemma ConcatSnoc(chunks: seq<string>, n: nat)
    requires n < |chunks|
    ensures Concat(chunks[..n + 1]) == Concat(chunks[..n]) + chunks[n]
  {
    assert chunks[..n + 1][..n] == chunks[..n];
  }

  /** Reading one more chunk only adds terminated lines after those already there. */
  lemma CompletedLinesStep(chunks: seq<string>, n: nat)
    requires n < |chunks|
    ensures IsPrefix(Init(Split(Concat(chunks[..n]), '\n')), Init(Split(Concat(chunks[..n + 1]), '\n')))
  {
    ConcatSnoc(chunks, n);
    InitSplitAppend(Concat(chunks[..n]), chunks[n], '\n');
  }

  /** The terminated lines of a prefix of the chunks are a prefix of the terminated lines of all of them. */
  lemma {:induction false} CompletedLinesGrow(chunks: seq<string>, n: nat)
    requires n <= |chunks|
    ensures IsPrefix(Init(Split(Concat(chunks[..n]), '\n')), Init(Split(Concat(chunks), '\n')))
    decreases |chunks| - n
  {
    if n == |chunks| {
      assert chunks[..n] == chunks;
    } else {
      CompletedLinesGrow(chunks, n + 1);
      CompletedLinesStep(chunks, n);
    }
  }

  /** Once the lines completed after chunk n reach `done`, the rest of the stream changes nothing. */
  lemma EarlyReturn(chunks: seq<string>, n: nat, ending: Ending, callerId: Option<int>, parse: string -> Payload)
    requires n < |chunks|
    requires RunLines(Start(callerId), Init(Split(Concat(chunks[..n + 1]), '\n')), parse).done
    ensures StreamResult(chunks, ending, callerId, parse) ==
      var a := RunLines(Start(callerId), Init(Split(Concat(chunks[..n + 1]), '\n')), parse); Finished(Finish(a), a.calls)
  {
    CompletedLinesGrow(chunks, n + 1);
    DonePrefixDecides(Start(callerId), Init(Split(Concat(chunks[..n + 1]), '\n')), Init(Split(Concat(chunks), '\n')), parse);
  }

  /** Once a prefix of the lines reaches `done`, the whole list ends in the same state. */
  lemma DonePrefixDecides(a: Acc, seen: seq<string>, all: seq<string>, parse: string -> Payload)
    requires IsPrefix(seen, all) && RunLines(a, seen, parse).done
    ensures RunLines(a, all, parse) == RunLines(a, seen, parse)
  {
    assert all == seen + all[|seen|..];
    RunLinesDoneThen(a, seen, all[|seen|..], parse);
  }

  // ---------------------------------------------------------------- framing and line handling

  /** After a chunk, the old buffer plus the chunk is exactly the emitted lines, each followed by '\n', then the new buffer; no piece holds a '\n'. */
  lemma FramingLossless(buffer: string, chunk: string)
    ensures var lines := Split(buffer + chunk, '\n');
      buffer + chunk == JoinTerminated(Init(lines), '\n') + Last(lines)
      && NoPartHas(lines, '\n')
  {
    SplitJoin(buffer + chunk, '\n');
    JoinAsTerminated(Split(buffer + chunk, '\n'), '\n');
  }

  /** Blank lines, lines without the exact "data: " prefix and "data: " lines with a blank payload change nothing. */
  lemma {:induction false} SkippedLinesChangeNothing(a: Acc, lines: seq<string>, parse: string -> Payload)
    requires forall k :: 0 <= k < |lines| ==> DataText(lines[k]).None?
    ensures RunLines(a, lines, parse) == a
    decreases |lines|
  {
    if lines != [] {
      assert OnLine(a, lines[0], parse) == a;
      SkippedLinesChangeNothing(a, lines[1..], parse);
    }
  }

  /** A data line whose payload does not parse, or carries an error, is passed over and the next line is handled as if it were absent. */
  lemma FailedLineDoesNotAbort(a: Acc, line: string, rest: seq<string>, parse: string -> Payload)
    requires DataText(line).Some?
    requires parse(DataText(line).value).Unparsable? || parse(DataText(line).value).error != []
    ensures RunLines(a, [line] + rest, parse) == RunLines(a, rest, parse)
  {
    assert ([line] + rest)[0] == line && ([line] + rest)[1..] == rest;
    assert OnLine(a, line, parse) == a;
  }

  /** The chunk a line contributes: that of a data line parsed without an error. */
  function LineText(line: string, parse: string -> Payload): string {
    match DataText(line)
    case None => []
    case Some(js) => match parse(js)
      case Unparsable => []
      case Fields(error, _, chunk, _, _) => if error != [] then [] else chunk
  }

  /** Whether a line is a data line parsed without an error that carries `done`. */
  predicate LineDone(line: string, parse: string -> Payload) {
    match DataText(line)
    case None => false
    case Some(js) => match parse(js)
      case Unparsable => false
      case Fields(error, _, _, done, _) => error == [] && done
  }

  /**
   * The text the lines stream: the `chunk` fields of the data lines that
   * parse without an error, in order, up to and including the first one
   * carrying `done`.
   */
  function Streamed(lines: seq<string>, parse: string -> Payload): string
    decreases |lines|
  {
    if lines == [] then []
    else if LineDone(lines[0], parse) then LineText(lines[0], parse)
    else LineText(lines[0], parse) + Streamed(lines[1..], parse)
  }

  /** The concatenation of the chunks of the onChunk calls. */
  function Total(calls: seq<Call>): string
    decreases |calls|
  {
    if calls == [] then [] else Total(calls[..|calls| - 1]) + calls[|calls| - 1].chunk
  }

  /** Every onChunk call gets a non-empty chunk and the running total up to and including it. */
  predicate RunningTotals(calls: seq<Call>) {
    forall k :: 0 <= k < |calls| ==> calls[k].chunk != [] && calls[k].fullResponse == Total(calls[..k + 1])
  }

  /** What the handler keeps true of its variables: fullResponse is the total of the chunks reported so far. */
  predicate Consistent(a: Acc) { a.full == Total(a.calls) && RunningTotals(a.calls) }

  lemma AppendCall(calls: seq<Call>, c: Call)
    requires RunningTotals(calls)
    requires c.chunk != [] && c.fullResponse == Total(calls) + c.chunk
    ensures RunningTotals(calls + [c]) && Total(calls + [c]) == c.fullResponse
  {
    var cs := calls + [c];
    assert cs[..|cs| - 1] == calls;
    forall k | 0 <= k < |cs|
      ensures cs[k].chunk != [] && cs[k].fullResponse == Total(cs[..k + 1])
    {
      if k < |calls| {
        assert cs[..k + 1] == calls[..k + 1];
      } else {
        assert cs[..k + 1] == cs;
      }
    }
  }

  lemma OnPayloadConsistent(a: Acc, p: Payload)
    requires Consistent(a)
    ensures Consistent(OnPayload(a, p))
  {
    if p.Fields? && p.error == [] && p.chunk != [] {
      AppendCall(a.calls, Call(p.chunk, a.full + p.chunk));
    }
  }

  /** One line: the handler keeps its variables consistent and adds the line's chunk; it finishes exactly on a `done` line. */
  lemma OnLineStep(a: Acc, line: string, parse: string -> Payload)
    requires Consistent(a) && !a.done
    ensures var b := OnLine(a, line, parse);
      Consistent(b) && b.full == a.full + LineText(line, parse) && (b.done <==> LineDone(line, parse))
  {
    match DataText(line)
    case None =>
    case Some(js) => OnPayloadConsistent(a, parse(js));
  }

  lemma RunLinesCons(a: Acc, lines: seq<string>, parse: string -> Payload)
    requires lines != []
    ensures RunLines(a, lines, parse) == RunLines(OnLine(a, lines[0], parse), lines[1..], parse)
  {
  }

  lemma ConcatAssoc(x: string, y: string, z: string)
    ensures x + y + z == x + (y + z)
  {
  }

  lemma StreamedCons(prefix: string, lines: seq<string>, parse: string -> Payload)
    requires lines != [] && !LineDone(lines[0], parse)
    ensures prefix + Streamed(lines, parse) == prefix + LineText(lines[0], parse) + Streamed(lines[1..], parse)
  {
    var y, z := LineText(lines[0], parse), Streamed(lines[1..], parse);
    assert Streamed(lines, parse) == y + z;
    ConcatAssoc(prefix, y, z);
  }

  /** fullResponse ends as the text streamed by the lines, and every onChunk call sees its chunk with the running total. */
  lemma {:induction false} FullResponseIsStreamed(a: Acc, lines: seq<string>, parse: string -> Payload)
    requires Consistent(a) && !a.done
    ensures var b := RunLines(a, lines, parse); b.full == a.full + Streamed(lines, parse) && Consistent(b)
    decreases |lines|
  {
    if lines != [] {
      var b := OnLine(a, lines[0], parse);
      OnLineStep(a, lines[0], parse);
      RunLinesCons(a, lines, parse);
      if b.done {
        RunLinesAfterDone(b, lines[1..], parse);
      } else {
        FullResponseIsStreamed(b, lines[1..], parse);
        StreamedCons(a.full, lines, parse);
      }
    }
  }

  /** Over a whole stream: the response is the streamed text and every onChunk call saw its running total. */
  lemma StreamResponseIsStreamed(chunks: seq<string>, ending: Ending, callerId: Option<int>, parse: string -> Payload)
    ensures var lines := Init(Split(Concat(chunks), '\n'));
      match StreamResult(chunks, ending, callerId, parse)
      case Finished(resp, calls) => resp.response == Streamed(lines, parse) && RunningTotals(calls) && Total(calls) == resp.response
      case ReadFailed(calls) => RunningTotals(calls) && Total(calls) == Streamed(lines, parse)
  {
    FullResponseIsStreamed(Start(callerId), Init(Split(Concat(chunks), '\n')), parse);
  }

  /** A final fragment with no '\n' after it is never handled: the result is as if it had not arrived. */
  lemma FinalFragmentIgnored(chunks: seq<string>, tail: string, ending: Ending, callerId: Option<int>, parse: string -> Payload)
    requires Concat(chunks) == [] || Concat(chunks)[|Concat(chunks)| - 1] == '\n'
    requires '\n' !in tail
    ensures StreamResult(chunks + [tail], ending, callerId, parse) == StreamResult(chunks, ending, callerId, parse)
  {
    assert (chunks + [tail])[..|chunks|] == chunks;
    assert Concat(chunks + [tail]) == Concat(chunks) + tail;
    UnterminatedTail(Concat(chunks), tail, '\n');
  }

  /** The conversation id stays the caller's unless a `done` line carries a truthy one. */
  lemma {:induction false} ConversationIdSource(a: Acc, lines: seq<string>, parse: string -> Payload)
    ensures var b := RunLines(a, lines, parse); b.convId == a.convId || TruthyId(b.convId)
    decreases |lines|
  {
    if lines != [] {
      var c := OnLine(a, lines[0], parse);
      assert RunLines(a, lines, parse) == RunLines(c, lines[1..], parse);
      assert c.convId == a.convId || TruthyId(c.convId) by { OnLineConversationId(a, lines[0], parse); }
      ConversationIdSource(c, lines[1..], parse);
    }
  }

  lemma OnLineConversationId(a: Acc, line: string, parse: string -> Payload)
    ensures var c := OnLine(a, line, parse); c.convId == a.convId || TruthyId(c.convId)
  {
    match DataText(line)
    case None =>
    case Some(js) =>
  }

  // ---------------------------------------------------------------- sending

  /** What the non-streaming request comes back with. */
  datatype NonStreamReply =
    | Replied(response: string, conversationId: Option<int>, title: Option<string>)
    | HttpError(status: int, error: string)
    | NetworkError(message: string)

  /** A call either returns a response or throws an Error with a message. */
  datatype SendResult = Answered(resp: ChatResponse) | Raised(message: string)

  /** The message of the Error thrown for a reply that is not ok: the server's `error`, else the status. */
  function ServerError(status: int, error: string): (r: string)
    ensures r != []
    ensures error != [] ==> r == error
  {
    if error != [] then error else "Server error: " + IntToString(status)
  }

  /**
   * sendMessageNonStreaming: the message is sanitised (again), and the
   * reply maps to a response whose conversation id falls back to the
   * caller's only when the server gave none (`??`).
   */
  function NonStreaming(message: string, callerId: Option<int>, reply: NonStreamReply): (r: (string, SendResult))
    ensures r.0 == NV.Sanitized(JsStr(message), 5000)
    ensures r.1.Answered? <==> reply.Replied?
    ensures reply.HttpError? ==> r.1 == Raised(ServerError(reply.status, reply.error))
    ensures reply.Replied? ==>
      (r.1.resp.response == reply.response && r.1.resp.title == reply.title
       && r.1.resp.conversationId == (if reply.conversationId.Some? then reply.conversationId else callerId))
  {
    var sent := NV.Sanitized(JsStr(message), 5000);
    match reply
    case Replied(response, id, title) =>
      (sent, Answered(ChatResponse(response, if id.Some? then id else callerId, title)))
    case HttpError(status, error) => (sent, Raised(ServerError(status, error)))
    case NetworkError(m) => (sent, Raised(m))
  }

  /** A conversation id of 0 on `done` is dropped by the stream, but kept by the non-streaming path. */
  lemma ZeroIdTreatedDifferently(a: Acc, line: string, parse: string -> Payload, message: string, callerId: Option<int>)
    requires !a.done && DataText(line).Some?
    requires var p := parse(DataText(line).value); p.Fields? && p.error == [] && p.done && p.conversationId == Some(0)
    ensures OnLine(a, line, parse).convId == a.convId
    ensures NonStreaming(message, callerId, Replied([], Some(0), None)).1.resp.conversationId == Some(0)
  {
  }

  /** How the streaming request goes: refused before a stream exists, answered without a readable body, or streamed. */
  datatype StreamReply =
    | FetchFailed(message: string)
    | Rejected(status: int, error: string)
    | NoReader
    | Stream(chunks: seq<string>, ending: Ending)

  /** The Error the catch block throws when the fallback fails too. */
  function FallbackError(r: SendResult): (m: string)
    requires r.Raised?
    ensures m != []
    ensures r.message != [] ==> m == r.message
  {
    if r.message != [] then r.message else "Failed to send message"
  }

  /**
   * sendMessage. `sent` lists the message bodies posted, in order; the
   * streaming request carries the sanitised message. When the stream
   * cannot be used, the catch block retries once without streaming with
   * the already sanitised message, which is then sanitised a second time.
   * With no readable body, the non-streaming call gets the raw message;
   * if that call throws, the same catch block retries once more.
   */
  method SendMessage(message: string, callerId: Option<int>, parse: string -> Payload,
                     reply: StreamReply, first: NonStreamReply, second: NonStreamReply)
    returns (result: SendResult, sent: seq<string>, calls: seq<Call>)
    ensures |sent| >= 1 && sent[0] == NV.Sanitized(JsStr(message), 5000)
    ensures reply.Stream? && StreamResult(reply.chunks, reply.ending, callerId, parse).Finished? ==>
      |sent| == 1 && result == Answered(StreamResult(reply.chunks, reply.ending, callerId, parse).resp)
      && calls == StreamResult(reply.chunks, reply.ending, callerId, parse).calls
    ensures reply.Stream? ==> calls == StreamResult(reply.chunks, reply.ending, callerId, parse).calls
    ensures !reply.Stream? ==> calls == []
    ensures (reply.FetchFailed? || reply.Rejected? || (reply.Stream? && StreamResult(reply.chunks, reply.ending, callerId, parse).ReadFailed?)) ==>
      |sent| == 2 && sent[1] == NV.Sanitized(JsStr(NV.Sanitized(JsStr(message), 5000)), 5000)
      && result == (if first.Replied? then NonStreaming(sent[0], callerId, first).1
                    else Raised(FallbackError(NonStreaming(sent[0], callerId, first).1)))
    ensures reply.NoReader? && first.Replied? ==> |sent| == 2 && result == NonStreaming(message, callerId, first).1
    ensures reply.NoReader? && !first.Replied? ==>
      |sent| == 3 && sent[2] == NV.Sanitized(JsStr(NV.Sanitized(JsStr(message), 5000)), 5000)
      && result == (if second.Replied? then NonStreaming(sent[0], callerId, second).1
                    else Raised(FallbackError(NonStreaming(sent[0], callerId, second).1)))
    ensures result.Raised? ==> result.message != []
  {
    var sanitized := NV.Sanitized(JsStr(message), 5000);
    sent := [sanitized];
    calls := [];
    var fallback := first;
    match reply {
      case FetchFailed(_) =>  // thrown inside the try: the catch block below retries
      case Rejected(_, _) =>  // the Error for a reply that is not ok, caught below
      case NoReader =>
        var attempt := NonStreaming(message, callerId, first);
        sent := sent + [attempt.0];
        if attempt.1.Answered? {
          return attempt.1, sent, calls;
        }
        fallback := second;
      case Stream(chunks, ending) =>
        var out := ConsumeStream(chunks, ending, callerId, parse);
        calls := out.calls;
        if out.Finished? {
          return Answered(out.resp), sent, calls;
        }
    }
    var retry := NonStreaming(sanitized, callerId, fallback);
    sent := sent + [retry.0];
    result := if retry.1.Answered? then retry.1 else Raised(FallbackError(retry.1));
  }
}
