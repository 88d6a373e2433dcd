/** The streaming transcript accumulator of the chat page, as functions:
    which stream lines carry a content delta, how one delta updates the
    transcript, the fold of a whole turn, and what a turn leaves behind. */
module Accumulator {
  import opened JsString

  /** Who wrote a transcript entry: the user (`'You'`) or the model (`'Bot'`). */
  datatype Sender = You | Bot

  /** One entry of the transcript. */
  datatype Message = Message(sender: Sender, content: string)

  /** The prefix that marks a line of the event stream as data. */
  const DataPrefix: string := "data: "
  /** The termination sentinel; a data line containing it is skipped. */
  const DoneMarker: string := "[DONE]"
  /** The content of the entry appended when a turn fails. */
  const ErrorText: string := "Error occurred"
  /** The entry appended when a turn fails. */
  const ErrorMessage: Message := Message(Bot, ErrorText)

  datatype Option<T> = None | Some(value: T)

  /** What parsing a payload and reading `choices[0].delta.content` from it
      yields: the payload is not JSON (or its fields cannot be read), the
      field is absent, or the field's value as text. */
  datatype Delta = Malformed | NoContent | Content(text: string)

  /** How the request of a turn went. `Streamed(chunks, readError)`: the
      reader yields the already-decoded `chunks` in order; then it reports
      the end of the body or, when `readError`, its next read throws. */
  datatype Reply =
    | NetworkError
    | NotOk
    | NoBody
    | Streamed(chunks: seq<string>, readError: bool)
  {
    /** The turn ends in the error handler. */
    predicate Failed() {
      !Streamed? || readError
    }
  }

  /** The state one turn threads through its lines: the transcript and the
      running `result` text. */
  datatype Acc = Acc(transcript: seq<Message>, result: string)

  /** The lines of a turn: every chunk split on its own, in order; a line
      that straddles two chunks becomes two lines. */
  function Lines(chunks: seq<string>): seq<string> {
    if |chunks| == 0 then []
    else Lines(chunks[..|chunks| - 1]) + Split(chunks[|chunks| - 1], '\n')
  }

  /** The trimmed payload of a data line, or `None` for a line that is
      skipped. */
  function Payload(line: string): Option<string> {
    if StartsWith(line, DataPrefix) && !Contains(line, DoneMarker) then
      var payload := Trim(line[|DataPrefix|..]);
      if payload == "" then None else Some(payload)
    else
      None
  }

  /** A line has a payload exactly when it starts with the data prefix, has
      the termination sentinel nowhere in it, and has something other than
      whitespace after the prefix; the payload is then the rest of the line
      after the prefix, trimmed. */
  lemma PayloadSpec(line: string)
    ensures Payload(line).Some? <==>
      && StartsWith(line, DataPrefix)
      && (forall i :: !OccursAt(line, DoneMarker, i))
      && !AllWhitespace(line[|DataPrefix|..])
    ensures Payload(line).Some? ==>
      Payload(line).value != "" && Payload(line).value == Trim(line[|DataPrefix|..])
  {
    ContainsSpec(line, DoneMarker);
    if StartsWith(line, DataPrefix) {
      TrimBlank(line[|DataPrefix|..]);
    }
  }

  /** The content delta a line contributes, if any: the payload parses and
      its content field is a non-empty text. */
  function DeltaOf(line: string, parse: string -> Delta): Option<string> {
    match Payload(line)
    case None => None
    case Some(payload) =>
      match parse(payload)
      case Content(text) => if text != "" then Some(text) else None
      case _ => None
  }

  /** The content delta of every line, in order. */
  function LineDeltas(lines: seq<string>, parse: string -> Delta): seq<Option<string>> {
    seq(|lines|, k requires 0 <= k < |lines| => DeltaOf(lines[k], parse))
  }

  /** The texts of the deltas that are present, in order. */
  function Present(ds: seq<Option<string>>): seq<string> {
    if |ds| == 0 then []
    else Present(ds[..|ds| - 1]) + (if ds[|ds| - 1].Some? then [ds[|ds| - 1].value] else [])
  }

  /** The content deltas of the lines, in order. */
  function Deltas(lines: seq<string>, parse: string -> Delta): seq<string> {
    Present(LineDeltas(lines, parse))
  }

  /** The `setMessages` updater for a delta: when the last entry is the
      model's it is given the running text, otherwise a model entry holding
      the running text is appended. Every entry before the last is kept. */
  function Update(t: seq<Message>, result: string): (u: seq<Message>)
    requires |t| > 0
    ensures |u| == if t[|t| - 1].sender == Bot then |t| else |t| + 1
    ensures u[..|t| - 1] == t[..|t| - 1]
    ensures t[|t| - 1].sender != Bot ==> u[..|t|] == t
    ensures u[|u| - 1] == Message(Bot, result)
  {
    var last := |t| - 1;
    if t[last].sender == Bot then t[last := t[last].(content := result)]
    else t + [Message(Bot, result)]
  }

  /** Handling the delta of one line: a delta is appended to the running
      text and the transcript is updated with it; a line without one
      changes nothing. */
  function Step(acc: Acc, delta: Option<string>): (a: Acc)
    requires |acc.transcript| > 0
    ensures |a.transcript| > 0
  {
    match delta
    case None => acc
    case Some(d) =>
      var result := acc.result + d;
      Acc(Update(acc.transcript, result), result)
  }

  /** Handling the deltas of the lines in order. Entries before the last one
      of the starting transcript are never touched. */
  function Fold(acc: Acc, ds: seq<Option<string>>): (a: Acc)
    requires |acc.transcript| > 0
    ensures |a.transcript| >= |acc.transcript|
    ensures a.transcript[..|acc.transcript| - 1] == acc.transcript[..|acc.transcript| - 1]
  {
    if |ds| == 0 then acc
    else Step(Fold(acc, ds[..|ds| - 1]), ds[|ds| - 1])
  }

  /** Handling one line, spelled out branch by branch as the page does it,
      which is the bridge from the handler's line loop to `Step`: a line
      that is not a data line, or contains the sentinel, or has an empty
      payload, or whose payload yields no non-empty content, changes
      nothing; otherwise the text grows by the content and the transcript is
      updated with it. It unfolds `Payload`, `DeltaOf` and `Step`; the
      properties themselves are `PayloadSpec` and `StepEffect`. */
  lemma StepCases(acc: Acc, line: string, parse: string -> Delta)
    requires |acc.transcript| > 0
    ensures !(StartsWith(line, DataPrefix) && !Contains(line, DoneMarker)) ==>
      Step(acc, DeltaOf(line, parse)) == acc
    ensures StartsWith(line, DataPrefix) && !Contains(line, DoneMarker) ==>
      var payload := Trim(line[|DataPrefix|..]);
      && (payload == "" ==> Step(acc, DeltaOf(line, parse)) == acc)
      && (payload != "" && !(parse(payload).Content? && parse(payload).text != "") ==>
            Step(acc, DeltaOf(line, parse)) == acc)
      && (payload != "" && parse(payload).Content? && parse(payload).text != "" ==>
            Step(acc, DeltaOf(line, parse)) ==
              Acc(Update(acc.transcript, acc.result + parse(payload).text), acc.result + parse(payload).text))
  {
  }

  /** The deltas of a run of lines followed by one more line. */
  lemma LineDeltasSnoc(lines: seq<string>, line: string, parse: string -> Delta)
    ensures LineDeltas(lines + [line], parse) == LineDeltas(lines, parse) + [DeltaOf(line, parse)]
  {
  }

  /** The deltas of two runs of lines, one after the other, line by line. */
  lemma LineDeltasAppend(a: seq<string>, b: seq<string>, parse: string -> Delta)
    ensures LineDeltas(a + b, parse) == LineDeltas(a, parse) + LineDeltas(b, parse)
  {
  }

  /** Handling the next line of a chunk after the lines before it. */
  lemma FoldNext(acc: Acc, before: seq<string>, lines: seq<string>, j: nat, parse: string -> Delta)
    requires |acc.transcript| > 0 && j < |lines|
    ensures Fold(acc, LineDeltas(before + lines[..j + 1], parse))
         == Step(Fold(acc, LineDeltas(before + lines[..j], parse)), DeltaOf(lines[j], parse))
  {
    assert before + lines[..j + 1] == (before + lines[..j]) + [lines[j]];
    LineDeltasSnoc(before + lines[..j], lines[j], parse);
    var ds := LineDeltas(before + lines[..j], parse);
    assert (ds + [DeltaOf(lines[j], parse)])[..|ds|] == ds;
  }

  /** The transcript after one submission of `input` against `reply`. A
      blank input changes nothing; otherwise the user's entry is appended,
      the lines are handled from an empty running text, and a failure
      appends the error entry. */
  function Turn(messages: seq<Message>, input: string, reply: Reply, parse: string -> Delta): seq<Message> {
    if Trim(input) == "" then messages
    else
      var start := messages + [Message(You, input)];
      match reply
      case Streamed(chunks, readError) =>
        var t := Fold(Acc(start, ""), LineDeltas(Lines(chunks), parse)).transcript;
        if readError then t + [ErrorMessage] else t
      case _ => start + [ErrorMessage]
  }

  /** A line changes the state exactly when it carries a delta; the running
      text then grows by that delta. */
  lemma StepEffect(acc: Acc, line: string, parse: string -> Delta)
    requires |acc.transcript| > 0
    ensures DeltaOf(line, parse).None? ==> Step(acc, DeltaOf(line, parse)) == acc
    ensures DeltaOf(line, parse).Some? ==>
      Step(acc, DeltaOf(line, parse)).result == acc.result + DeltaOf(line, parse).value
      && Step(acc, DeltaOf(line, parse)).result != acc.result
  {
    match DeltaOf(line, parse)
    case None =>
    case Some(d) =>
      assert |acc.result + d| > |acc.result|;
  }

  /** A second update of the same transcript overrides the first. */
  lemma UpdateTwice(t: seq<Message>, r1: string, r2: string)
    requires |t| > 0
    ensures Update(Update(t, r1), r2) == Update(t, r2)
  {
    var u := Update(t, r1);
    assert u[|u| - 1].sender == Bot;
    if t[|t| - 1].sender == Bot {
      assert Update(u, r2) == t[..|t| - 1] + [Message(Bot, r2)];
    } else {
      assert u == t + [Message(Bot, r1)];
    }
  }

  /** What a run of lines does: the running text grows by the in-order
      concatenation of the deltas, and the transcript is untouched when
      there are none and updated once with the final text otherwise. */
  lemma {:induction false} FoldShape(acc: Acc, ds: seq<Option<string>>)
    requires |acc.transcript| > 0
    ensures Fold(acc, ds).result == acc.result + Concat(Present(ds))
    ensures Fold(acc, ds).transcript ==
      if Present(ds) == [] then acc.transcript
      else Update(acc.transcript, acc.result + Concat(Present(ds)))
  {
    if ds != [] {
      var init := ds[..|ds| - 1];
      FoldShape(acc, init);
      var texts := Present(init);
      match ds[|ds| - 1]
      case None =>
        assert Present(ds) == texts;
      case Some(d) =>
        assert Present(ds) == texts + [d];
        ConcatSnoc(texts, d);
        if texts != [] {
          UpdateTwice(acc.transcript, acc.result + Concat(texts), acc.result + Concat(texts + [d]));
        }
    }
  }

  /** The present deltas of two runs, one after the other. */
  lemma {:induction false} PresentAppend(a: seq<Option<string>>, b: seq<Option<string>>)
    ensures Present(a + b) == Present(a) + Present(b)
  {
    if b == [] {
      assert a + b == a;
    } else {
      PresentAppend(a, b[..|b| - 1]);
      assert (a + b)[..|a + b| - 1] == a + b[..|b| - 1];
    }
  }

  /** The deltas of two runs of lines, one after the other. */
  lemma DeltasAppend(a: seq<string>, b: seq<string>, parse: string -> Delta)
    ensures Deltas(a + b, parse) == Deltas(a, parse) + Deltas(b, parse)
  {
    LineDeltasAppend(a, b, parse);
    PresentAppend(LineDeltas(a, parse), LineDeltas(b, parse));
  }

  /** The text the model's entry of a turn ends with: every delta of the
      streamed lines, in order. */
  function ReplyText(reply: Reply, parse: string -> Delta): string {
    if reply.Streamed? then Concat(Deltas(Lines(reply.chunks), parse)) else ""
  }

  /** What one turn leaves: for a blank input the transcript as it was;
      otherwise the earlier entries unchanged, then the user's entry with
      the untrimmed input, then one model entry with all the deltas if
      there were any, then one error entry if the turn failed. */
  lemma TurnShape(messages: seq<Message>, input: string, reply: Reply, parse: string -> Delta)
    ensures Trim(input) == "" ==> Turn(messages, input, reply, parse) == messages
    ensures Trim(input) != "" ==>
      Turn(messages, input, reply, parse) ==
        messages + [Message(You, input)]
        + (if ReplyText(reply, parse) != "" then [Message(Bot, ReplyText(reply, parse))] else [])
        + (if reply.Failed() then [ErrorMessage] else [])
  {
    if Trim(input) != "" {
      var start := messages + [Message(You, input)];
      var model := if ReplyText(reply, parse) != "" then [Message(Bot, ReplyText(reply, parse))] else [];
      match reply
      case Streamed(chunks, readError) =>
        StreamedLines(start, chunks, parse);
        var t := Fold(Acc(start, ""), LineDeltas(Lines(chunks), parse)).transcript;
        assert t == start + model;
        assert Turn(messages, input, reply, parse) == if readError then t + [ErrorMessage] else t;
      case _ =>
        assert model == [];
        assert Turn(messages, input, reply, parse) == start + [ErrorMessage];
    }
  }

  /** The lines of a turn, handled after the user's entry, leave one model
      entry holding all the deltas, or nothing when there are none. */
  lemma StreamedLines(start: seq<Message>, chunks: seq<string>, parse: string -> Delta)
    requires |start| > 0 && start[|start| - 1].sender == You
    ensures Fold(Acc(start, ""), LineDeltas(Lines(chunks), parse)).transcript ==
      start + (if ReplyText(Streamed(chunks, false), parse) != ""
               then [Message(Bot, ReplyText(Streamed(chunks, false), parse))] else [])
  {
    var ds := LineDeltas(Lines(chunks), parse);
    LineDeltasNonEmpty(Lines(chunks), parse);
    FoldAfterUser(start, ds);
  }

  /** Deltas handled after the user's entry leave one model entry holding
      all of them, or nothing when there are none. */
  lemma FoldAfterUser(start: seq<Message>, ds: seq<Option<string>>)
    requires |start| > 0 && start[|start| - 1].sender == You
    requires NonEmptyDeltas(ds)
    ensures Fold(Acc(start, ""), ds).transcript ==
      start + (if Concat(Present(ds)) != "" then [Message(Bot, Concat(Present(ds)))] else [])
  {
    FoldShape(Acc(start, ""), ds);
    var texts := Present(ds);
    assert "" + Concat(texts) == Concat(texts);
    PresentNonEmpty(ds);
  }

  /** A delta that is present is never the empty text. */
  predicate NonEmptyDeltas(ds: seq<Option<string>>) {
    forall k :: 0 <= k < |ds| && ds[k].Some? ==> ds[k].value != ""
  }

  /** Every line's delta, when present, is a non-empty text. */
  lemma LineDeltasNonEmpty(lines: seq<string>, parse: string -> Delta)
    ensures NonEmptyDeltas(LineDeltas(lines, parse))
  {
  }

  /** When every delta is a non-empty text, there is some text exactly when
      there is some delta. */
  lemma {:induction false} PresentNonEmpty(ds: seq<Option<string>>)
    requires NonEmptyDeltas(ds)
    ensures forall k :: 0 <= k < |Present(ds)| ==> Present(ds)[k] != ""
    ensures Concat(Present(ds)) == "" <==> Present(ds) == []
  {
    if ds != [] {
      var init := ds[..|ds| - 1];
      assert NonEmptyDeltas(init) by {
        forall k | 0 <= k < |init| && init[k].Some? ensures init[k].value != "" {
          assert init[k] == ds[k];
        }
      }
      PresentNonEmpty(init);
      var texts := Present(ds);
      if texts != [] {
        assert Concat(texts) == Concat(texts[..|texts| - 1]) + texts[|texts| - 1];
      }
    }
  }

  /** The sentinel is looked for anywhere in the line: a line holding it at
      any position carries no delta, whatever its payload would parse to. */
  lemma SentinelAnywhereSkips(line: string, i: int, parse: string -> Delta)
    requires OccursAt(line, DoneMarker, i)
    ensures DeltaOf(line, parse) == None
  {
    ContainsSpec(line, DoneMarker);
  }

  /** A read that fails part-way keeps what was streamed so far: the turn is
      the one the same chunks give when the body ends normally, plus exactly
      one error entry after it. */
  lemma ReadErrorKeepsPartialReply(messages: seq<Message>, input: string, chunks: seq<string>,
                                   parse: string -> Delta)
    requires Trim(input) != ""
    ensures Turn(messages, input, Streamed(chunks, true), parse)
         == Turn(messages, input, Streamed(chunks, false), parse) + [ErrorMessage]
  {
    TurnShape(messages, input, Streamed(chunks, true), parse);
    TurnShape(messages, input, Streamed(chunks, false), parse);
  }

  /** A later turn never alters the entries an earlier turn left: the model
      entry of a finished turn is sealed. */
  lemma EarlierTurnsSealed(
    messages: seq<Message>, input1: string, reply1: Reply, input2: string, reply2: Reply,
    parse: string -> Delta)
    ensures var first := Turn(messages, input1, reply1, parse);
      var second := Turn(first, input2, reply2, parse);
      |first| <= |second| && second[..|first|] == first
  {
    var first := Turn(messages, input1, reply1, parse);
    TurnShape(messages, input1, reply1, parse);
    TurnShape(first, input2, reply2, parse);
  }

  /** A single line contributes its own delta, if it has one. */
  lemma DeltasOfOneLine(line: string, parse: string -> Delta)
    ensures Deltas([line], parse) == if DeltaOf(line, parse).Some? then [DeltaOf(line, parse).value] else []
  {
    var ds := LineDeltas([line], parse);
    assert |ds| == 1 && ds[0] == DeltaOf(line, parse);
    assert ds[..0] == [];
    assert Present(ds) == Present([]) + (if ds[0].Some? then [ds[0].value] else []);
  }

  /** An empty line carries no delta. */
  lemma EmptyLineNoDelta(parse: string -> Delta)
    ensures Deltas([""], parse) == []
  {
    DeltasOfOneLine("", parse);
  }

  /** A chunk that ends at a line end. */
  predicate EndsLine(chunk: string) {
    chunk != [] && chunk[|chunk| - 1] == '\n'
  }

  /** Every chunk boundary of the body falls at a line end. */
  predicate LineAligned(chunks: seq<string>) {
    forall k :: 0 <= k < |chunks| - 1 ==> EndsLine(chunks[k])
  }

  /** Chunk boundaries that fall at line ends do not matter: the turn gives
      the same transcript as when the whole body arrives as one chunk. */
  lemma LineAlignedChunks(messages: seq<Message>, input: string, chunks: seq<string>, readError: bool,
                          parse: string -> Delta)
    requires LineAligned(chunks)
    ensures Turn(messages, input, Streamed(chunks, readError), parse)
         == Turn(messages, input, Streamed([Concat(chunks)], readError), parse)
  {
    LinesOfAlignedChunks(chunks, parse);
    assert Lines([Concat(chunks)]) == Split(Concat(chunks), '\n');
    TurnShape(messages, input, Streamed(chunks, readError), parse);
    TurnShape(messages, input, Streamed([Concat(chunks)], readError), parse);
  }

  /** The deltas of per-chunk splitting equal those of splitting the whole
      body when every chunk but the last ends with a line feed: the only
      extra lines are empty ones, which carry nothing. */
  lemma {:induction false} LinesOfAlignedChunks(chunks: seq<string>, parse: string -> Delta)
    requires LineAligned(chunks)
    ensures Deltas(Lines(chunks), parse) == Deltas(Split(Concat(chunks), '\n'), parse)
  {
    if chunks == [] {
      assert Split("", '\n') == [""];
      EmptyLineNoDelta(parse);
    } else {
      var init := chunks[..|chunks| - 1];
      var c := chunks[|chunks| - 1];
      assert chunks == init + [c];
      assert Lines(chunks) == Lines(init) + Split(c, '\n');
      DeltasAppend(Lines(init), Split(c, '\n'), parse);
      if init == [] {
        ConcatSnoc([], c);
        assert Concat(chunks) == "" + c == c;
        assert Lines(init) == [];
        assert Deltas(Lines(init), parse) == [];
        assert Deltas(Lines(chunks), parse) == Deltas(Split(c, '\n'), parse);
      } else {
        assert LineAligned(init);
        LinesOfAlignedChunks(init, parse);
        assert EndsLine(init[|init| - 1]);
        AppendAfterLineEnd(init, c, parse);
      }
    }
  }

  /** One more chunk after a body that ends at a line end adds the deltas of
      its own lines. */
  lemma AppendAfterLineEnd(init: seq<string>, c: string, parse: string -> Delta)
    requires init != [] && EndsLine(init[|init| - 1])
    ensures Deltas(Split(Concat(init + [c]), '\n'), parse)
         == Deltas(Split(Concat(init), '\n'), parse) + Deltas(Split(c, '\n'), parse)
  {
    ConcatEndsLine(init);
    var whole := Concat(init);
    var x := whole[..|whole| - 1];
    assert whole == x + ['\n'];
    ConcatSnoc(init, c);
    DeltasAfterLineEnd(x, c, parse);
  }

  /** Splitting at a line feed adds the deltas of what follows it. */
  lemma DeltasAfterLineEnd(x: string, c: string, parse: string -> Delta)
    ensures Deltas(Split(x + ['\n'] + c, '\n'), parse)
         == Deltas(Split(x + ['\n'], '\n'), parse) + Deltas(Split(c, '\n'), parse)
  {
    SplitAround(x, "", '\n');
    assert x + ['\n'] + "" == x + ['\n'];
    SplitAround(x, c, '\n');
    assert Split("", '\n') == [""];
    EmptyLineNoDelta(parse);
    DeltasAppend(Split(x, '\n'), [""], parse);
    DeltasAppend(Split(x, '\n'), Split(c, '\n'), parse);
  }

  /** A body whose last chunk ends at a line end ends at a line end. */
  lemma ConcatEndsLine(chunks: seq<string>)
    requires chunks != [] && EndsLine(chunks[|chunks| - 1])
    ensures EndsLine(Concat(chunks))
  {
    var whole := Concat(chunks);
    var last := chunks[|chunks| - 1];
    assert whole == Concat(chunks[..|chunks| - 1]) + last;
    assert whole[|whole| - 1] == last[|last| - 1];
  }
}
