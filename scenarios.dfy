/** Concrete turns of the chat page: the reply spelled out as stream lines,
    and a line that a chunk boundary cuts in two. */
module Scenarios {
  import opened JsString
  import opened Accumulator

  /** The start of a streamed completion payload, up to its delta object. */
  const ChoicesHead: string := "{\"choices\":[{\"delta\":"

  /** The rest of the payloads of the example, after the head. */
  const HelTail: string := "{\"content\":\"Hel\"}}]}"
  const LoTail: string := "{\"content\":\"lo\"}}]}"

  const HelPayload: string := ChoicesHead + HelTail
  const LoPayload: string := ChoicesHead + LoTail
  const HelLine: string := DataPrefix + HelPayload
  const LoLine: string := DataPrefix + LoPayload
  const DoneLine: string := DataPrefix + DoneMarker

  /** A payload that starts and ends with a non-whitespace character is its
      own trimmed form. */
  lemma TrimUnchanged(s: string)
    requires s != [] && !IsWhitespace(s[0]) && !IsWhitespace(s[|s| - 1])
    ensures Trim(s) == s
  {
    assert TrimStart(s) == s;
    assert TrimEnd(s) == s;
  }

  /** A data line whose payload has no sentinel letter `D` and no whitespace
      at its ends yields the payload's non-empty content, if it has one. */
  lemma DataLineDelta(payload: string, parse: string -> Delta)
    requires 'D' !in payload
    requires payload != [] && !IsWhitespace(payload[0]) && !IsWhitespace(payload[|payload| - 1])
    ensures DeltaOf(DataPrefix + payload, parse) ==
      if parse(payload).Content? && parse(payload).text != "" then Some(parse(payload).text) else None
  {
    var line := DataPrefix + payload;
    assert line[..|DataPrefix|] == DataPrefix && line[|DataPrefix|..] == payload;
    MissingCharNotContained(line, DoneMarker, 'D');
    TrimUnchanged(payload);
  }

  /** A chunk made of three lines joined by line feeds splits into those
      lines. */
  lemma LinesOfThree(l1: string, l2: string, l3: string)
    requires '\n' !in l1 && '\n' !in l2 && '\n' !in l3
    ensures Lines([l1 + "\n" + l2 + "\n" + l3]) == [l1] + [l2] + [l3]
  {
    var body := l1 + "\n" + l2 + "\n" + l3;
    assert body == l1 + ['\n'] + (l2 + ['\n'] + l3);
    SplitAround(l1, l2 + ['\n'] + l3, '\n');
    SplitAround(l2, l3, '\n');
    SplitWithoutSeparator(l1, '\n');
    SplitWithoutSeparator(l2, '\n');
    SplitWithoutSeparator(l3, '\n');
    assert [body][..0] == [];
    assert Lines([body]) == Lines([]) + Split(body, '\n');
  }

  /** Three lines, the first two carrying deltas `a` and `b` and the third
      none, have the deltas `a` and `b`. */
  lemma ThreeLineDeltas(l1: string, l2: string, l3: string, parse: string -> Delta, a: string, b: string)
    requires DeltaOf(l1, parse) == Some(a) && DeltaOf(l2, parse) == Some(b) && DeltaOf(l3, parse) == None
    ensures Deltas([l1] + [l2] + [l3], parse) == [a, b]
    ensures a + b != ""
  {
    DeltasOfOneLine(l1, parse);
    DeltasOfOneLine(l2, parse);
    DeltasOfOneLine(l3, parse);
    DeltasAppend([l1], [l2], parse);
    DeltasAppend([l1] + [l2], [l3], parse);
  }

  /** Three lines in one chunk whose deltas are `a` and `b` give the reply
      text `a + b`. */
  lemma ThreeLineText(l1: string, l2: string, l3: string, parse: string -> Delta, a: string, b: string)
    requires '\n' !in l1 && '\n' !in l2 && '\n' !in l3
    requires Deltas([l1] + [l2] + [l3], parse) == [a, b]
    ensures ReplyText(Streamed([l1 + "\n" + l2 + "\n" + l3], false), parse) == a + b
  {
    LinesOfThree(l1, l2, l3);
    assert [a, b][..1] == [a] && [a][..0] == [];
    assert Concat([a]) == Concat([]) + a;
    assert Concat([a, b]) == Concat([a]) + b;
  }

  /** A single chunk of three lines, the first two carrying deltas `a` and
      `b` and the third none, leaves one model entry `a + b`. */
  lemma ThreeLineTurn(messages: seq<Message>, input: string, l1: string, l2: string, l3: string,
                      parse: string -> Delta, a: string, b: string)
    requires Trim(input) != ""
    requires '\n' !in l1 && '\n' !in l2 && '\n' !in l3
    requires DeltaOf(l1, parse) == Some(a) && DeltaOf(l2, parse) == Some(b) && DeltaOf(l3, parse) == None
    ensures Turn(messages, input, Streamed([l1 + "\n" + l2 + "\n" + l3], false), parse)
         == messages + [Message(You, input), Message(Bot, a + b)]
  {
    ThreeLineDeltas(l1, l2, l3, parse, a, b);
    ThreeLineText(l1, l2, l3, parse, a, b);
    TurnShape(messages, input, Streamed([l1 + "\n" + l2 + "\n" + l3], false), parse);
  }

  /** The first line of the example carries "Hel". */
  lemma HelLineDelta(parse: string -> Delta)
    requires parse(HelPayload) == Content("Hel")
    ensures DeltaOf(HelLine, parse) == Some("Hel") && '\n' !in HelLine
  {
    assert 'D' !in ChoicesHead && 'D' !in HelTail;
    assert '\n' !in DataPrefix && '\n' !in ChoicesHead && '\n' !in HelTail;
    assert HelPayload[0] == ChoicesHead[0] == '{';
    assert HelPayload[|HelPayload| - 1] == HelTail[|HelTail| - 1] == '}';
    DataLineDelta(HelPayload, parse);
  }

  /** The second line of the example carries "lo". */
  lemma LoLineDelta(parse: string -> Delta)
    requires parse(LoPayload) == Content("lo")
    ensures DeltaOf(LoLine, parse) == Some("lo") && '\n' !in LoLine
  {
    assert 'D' !in ChoicesHead && 'D' !in LoTail;
    assert '\n' !in DataPrefix && '\n' !in ChoicesHead && '\n' !in LoTail;
    assert LoPayload[0] == ChoicesHead[0] == '{';
    assert LoPayload[|LoPayload| - 1] == LoTail[|LoTail| - 1] == '}';
    DataLineDelta(LoPayload, parse);
  }

  /** The sentinel line carries nothing. */
  lemma DoneLineNoDelta(parse: string -> Delta)
    ensures DeltaOf(DoneLine, parse) == None && '\n' !in DoneLine
  {
    ContainsSpec(DoneLine, DoneMarker);
    assert OccursAt(DoneLine, DoneMarker, |DataPrefix|);
  }

  /** The stream of three lines for "Hel", "lo" and the sentinel, arriving
      in one chunk after a submission, leaves exactly one model entry,
      "Hello", after the user's entry. */
  lemma HelloExample(messages: seq<Message>, input: string, parse: string -> Delta)
    requires Trim(input) != ""
    requires parse(HelPayload) == Content("Hel") && parse(LoPayload) == Content("lo")
    ensures Turn(messages, input, Streamed([HelLine + "\n" + LoLine + "\n" + DoneLine], false), parse)
         == messages + [Message(You, input), Message(Bot, "Hello")]
  {
    HelLineDelta(parse);
    LoLineDelta(parse);
    DoneLineNoDelta(parse);
    ThreeLineTurn(messages, input, HelLine, LoLine, DoneLine, parse, "Hel", "lo");
    assert "Hel" + "lo" == "Hello";
  }

  /** The rest of the "Hi" line after the cut. */
  const HiTail: string := "{\"content\":\"Hi\"}}]}"
  /** The line before the cut: a data line whose payload is incomplete. */
  const CutHead: string := DataPrefix + ChoicesHead
  /** The payload of the whole line, and the whole line. */
  const HiPayload: string := ChoicesHead + HiTail
  const HiLine: string := DataPrefix + HiPayload

  /** The head of the cut line is a data line whose payload does not parse. */
  lemma CutHeadNoDelta(parse: string -> Delta)
    requires parse(ChoicesHead) == Malformed
    ensures DeltaOf(CutHead, parse) == None && '\n' !in CutHead
  {
    assert 'D' !in ChoicesHead && '\n' !in DataPrefix && '\n' !in ChoicesHead;
    assert ChoicesHead[0] == '{' && ChoicesHead[|ChoicesHead| - 1] == ':';
    DataLineDelta(ChoicesHead, parse);
  }

  /** The tail of the cut line lacks the data prefix. */
  lemma HiTailNoDelta(parse: string -> Delta)
    ensures DeltaOf(HiTail, parse) == None && '\n' !in HiTail
  {
    assert HiTail[0] != DataPrefix[0];
  }

  /** The whole line carries "Hi", and it is the head and the tail joined. */
  lemma WholeHiLine(parse: string -> Delta)
    requires parse(HiPayload) == Content("Hi")
    ensures DeltaOf(HiLine, parse) == Some("Hi") && '\n' !in HiLine
    ensures CutHead + HiTail == HiLine
  {
    assert 'D' !in ChoicesHead && 'D' !in HiTail;
    assert '\n' !in DataPrefix && '\n' !in ChoicesHead && '\n' !in HiTail;
    assert HiPayload[0] == ChoicesHead[0] == '{';
    assert HiPayload[|HiPayload| - 1] == HiTail[|HiTail| - 1] == '}';
    DataLineDelta(HiPayload, parse);
  }

  /** Chunks are split on their own: a content line cut by a chunk boundary
      becomes a data line whose payload does not parse and a line without
      the data prefix, so its delta is lost; the same line arriving whole
      gives a model entry. */
  lemma LineAcrossChunksIsLost(messages: seq<Message>, input: string, parse: string -> Delta)
    requires Trim(input) != ""
    requires parse(ChoicesHead) == Malformed
    requires parse(HiPayload) == Content("Hi")
    ensures CutHead + HiTail == HiLine
    ensures Turn(messages, input, Streamed([CutHead, HiTail], false), parse)
         == messages + [Message(You, input)]
    ensures Turn(messages, input, Streamed([HiLine], false), parse)
         == messages + [Message(You, input), Message(Bot, "Hi")]
  {
    CutHeadNoDelta(parse);
    HiTailNoDelta(parse);
    NoDeltaTwoChunks(messages, input, CutHead, HiTail, parse);
    WholeHiLine(parse);
    OneLineTurn(messages, input, HiLine, parse, "Hi");
  }

  /** Two chunks of one line each split into those two lines. */
  lemma LinesOfTwo(c1: string, c2: string)
    requires '\n' !in c1 && '\n' !in c2
    ensures Lines([c1, c2]) == [c1] + [c2]
  {
    SplitWithoutSeparator(c1, '\n');
    SplitWithoutSeparator(c2, '\n');
    var chunks := [c1, c2];
    assert chunks[..1] == [c1] && [c1][..0] == [];
    assert Lines([c1]) == Lines([]) + Split(c1, '\n');
    assert Lines(chunks) == Lines([c1]) + Split(c2, '\n');
  }

  /** Two chunks of one line each, neither carrying a delta, give no reply
      text. */
  lemma NoDeltaText(c1: string, c2: string, parse: string -> Delta)
    requires '\n' !in c1 && '\n' !in c2
    requires DeltaOf(c1, parse) == None && DeltaOf(c2, parse) == None
    ensures ReplyText(Streamed([c1, c2], false), parse) == ""
  {
    LinesOfTwo(c1, c2);
    DeltasOfOneLine(c1, parse);
    DeltasOfOneLine(c2, parse);
    DeltasAppend([c1], [c2], parse);
  }

  /** Two chunks of one line each, neither carrying a delta, leave only the
      user's entry. */
  lemma NoDeltaTwoChunks(messages: seq<Message>, input: string, c1: string, c2: string,
                         parse: string -> Delta)
    requires Trim(input) != ""
    requires '\n' !in c1 && '\n' !in c2
    requires DeltaOf(c1, parse) == None && DeltaOf(c2, parse) == None
    ensures Turn(messages, input, Streamed([c1, c2], false), parse) == messages + [Message(You, input)]
  {
    NoDeltaText(c1, c2, parse);
    TurnShape(messages, input, Streamed([c1, c2], false), parse);
  }

  /** One line carrying delta `t` gives the reply text `t`. */
  lemma OneLineText(line: string, parse: string -> Delta, t: string)
    requires '\n' !in line
    requires DeltaOf(line, parse) == Some(t)
    ensures ReplyText(Streamed([line], false), parse) == t && t != ""
  {
    SplitWithoutSeparator(line, '\n');
    assert [line][..0] == [];
    assert Lines([line]) == Lines([]) + Split(line, '\n');
    DeltasOfOneLine(line, parse);
    assert [t][..0] == [];
    assert Concat([t]) == t;
  }

  /** One chunk of one line carrying delta `t` leaves one model entry `t`. */
  lemma OneLineTurn(messages: seq<Message>, input: string, line: string, parse: string -> Delta, t: string)
    requires Trim(input) != ""
    requires '\n' !in line
    requires DeltaOf(line, parse) == Some(t)
    ensures Turn(messages, input, Streamed([line], false), parse)
         == messages + [Message(You, input), Message(Bot, t)]
  {
    OneLineText(line, parse, t);
    TurnShape(messages, input, Streamed([line], false), parse);
  }
}
