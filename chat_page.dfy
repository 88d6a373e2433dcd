/** The chat page's state and its submit handler. The page holds the text of
    the input box and the transcript; submitting posts the input and folds
    the streamed reply into the transcript as it arrives. */
module ChatPage {
  import opened JsString
  import opened Accumulator

  class Home {
    /** The text in the input box. */
    var input: string
    /** The transcript, in display order. */
    var messages: seq<Message>

    /** A fresh page: an empty input box and an empty transcript. */
    constructor ()
      ensures input == "" && messages == []
    {
      input := "";
      messages := [];
    }

    /** Submitting the form. A blank input is ignored and nothing is posted.
        Otherwise the input is posted (`sent`), the box is cleared, and the
        transcript becomes what `Turn` says: the user's entry, the reply's
        deltas folded in line by line, and the error entry if the request or
        a read fails. `reply` stands for what the network returns and `parse`
        for reading `choices[0].delta.content` out of a payload. */
    method HandleSubmit(reply: Reply, parse: string -> Delta) returns (sent: Option<string>)
      modifies this
      ensures sent == if Trim(old(input)) == "" then None else Some(old(input))
      ensures input == if Trim(old(input)) == "" then old(input) else ""
      ensures messages == Turn(old(messages), old(input), reply, parse)
    {
      if Trim(input) == "" {
        return None;
      }
      var submitted := input;
      messages := messages + [Message(You, submitted)];
      input := "";
      sent := Some(submitted);
      ghost var start := Acc(messages, "");

      match reply
      case Streamed(chunks, readError) =>
        var result := "";
        var i := 0;
        while i < |chunks|
          invariant 0 <= i <= |chunks|
          invariant input == ""
          invariant Acc(messages, result) == Fold(start, LineDeltas(Lines(chunks[..i]), parse))
        {
          var lines := Split(chunks[i], '\n');
          ghost var before := Lines(chunks[..i]);
          assert chunks[..i + 1][..i] == chunks[..i];
          assert Lines(chunks[..i + 1]) == before + lines;
          assert before + lines[..0] == before;
          for j := 0 to |lines|
            invariant input == ""
            invariant Acc(messages, result) == Fold(start, LineDeltas(before + lines[..j], parse))
          {
            FoldNext(start, before, lines, j, parse);
            result := HandleLine(lines[j], result, parse);
          }
          assert lines[..|lines|] == lines;
          i := i + 1;
        }
        assert chunks[..i] == chunks;
        if readError {
          messages := messages + [ErrorMessage];
        }
      case _ =>
        messages := messages + [ErrorMessage];
    }

    /** The body of the line loop of the submit handler: a data line without
        the sentinel whose trimmed payload is non-empty and yields non-empty
        content appends that content to the running text and passes the
        text to the transcript updater; every other line changes nothing.
        `result` is the running text before the line; the running text after
        it is returned. */
    method HandleLine(line: string, result: string, parse: string -> Delta) returns (newResult: string)
      requires |messages| > 0
      modifies this`messages
      ensures Acc(messages, newResult) == Step(Acc(old(messages), result), DeltaOf(line, parse))
    {
      newResult := result;
      StepCases(Acc(messages, result), line, parse);
      if StartsWith(line, DataPrefix) && !Contains(line, DoneMarker) {
        var payload := Trim(line[|DataPrefix|..]);
        if payload == "" {
          return;
        }
        match parse(payload)
        case Content(content) =>
          if content != "" {
            newResult := newResult + content;
            var lastIndex := |messages| - 1;
            if messages[lastIndex].sender == Bot {
              messages := messages[lastIndex := messages[lastIndex].(content := newResult)];
            } else {
              messages := messages + [Message(Bot, newResult)];
            }
          }
        case _ =>
      }
    }
  }
}
