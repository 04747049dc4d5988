/** buildRequest of the Anthropic adapter (agent/llm/anthropic.go): runs of tool
    results are batched into one user message. */
module AnthropicAdapter {
  import opened Transcript

  /** The JSON argument text of a call is carried through undecoded. */
  datatype Block =
    | TextBlock(text: string)
    | ToolUse(id: string, name: string, arguments: string)
    | ToolResult(toolUseID: string, content: string)

  datatype Role = UserRole | AssistantRole

  datatype WireMessage = WireMessage(role: Role, content: seq<Block>)

  function Uses(calls: seq<ToolCall>): (bs: seq<Block>)
    ensures |bs| == |calls|
    ensures forall i :: 0 <= i < |calls| ==> bs[i] == ToolUse(calls[i].id, calls[i].name, calls[i].arguments)
  {
    seq(|calls|, i requires 0 <= i < |calls| => ToolUse(calls[i].id, calls[i].name, calls[i].arguments))
  }

  function TextOf(content: string): seq<Block> {
    if content == "" then [] else [TextBlock(content)]
  }

  /** The blocks one message contributes; a system message contributes none. */
  function BlocksOf(m: Message): seq<Block> {
    match m
    case System(_) => []
    case User(c) => TextOf(c)
    case Assistant(c, calls) => TextOf(c) + Uses(calls)
    case Tool(_, id, c) => [ToolResult(id, c)]
  }

  function AllBlocks(ms: seq<Message>): seq<Block> {
    if ms == [] then [] else AllBlocks(ms[..|ms| - 1]) + BlocksOf(ms[|ms| - 1])
  }

  function Flatten(ws: seq<WireMessage>): seq<Block> {
    if ws == [] then [] else Flatten(ws[..|ws| - 1]) + ws[|ws| - 1].content
  }

  function RoleOf(m: Message): Role {
    if m.Assistant? then AssistantRole else UserRole
  }

  /** What the loop has built after a list of messages: the finished messages,
      the tool results still pending, and the system texts. */
  datatype Build = Build(messages: seq<WireMessage>, pending: seq<Block>, systemParts: seq<string>)

  function Flush(b: Build): Build {
    if b.pending == [] then b else b.(messages := b.messages + [WireMessage(UserRole, b.pending)], pending := [])
  }

  function Add(b: Build, m: Message): Build {
    match m
    case System(c) => if c != "" then b.(systemParts := b.systemParts + [c]) else b
    case Tool(_, id, c) => b.(pending := b.pending + [ToolResult(id, c)])
    case _ => var f := Flush(b); f.(messages := f.messages + [WireMessage(RoleOf(m), BlocksOf(m))])
  }

  function Built(ms: seq<Message>): Build {
    if ms == [] then Build([], [], []) else Add(Built(ms[..|ms| - 1]), ms[|ms| - 1])
  }

  /** The content blocks of a user or assistant message. */
  method MessageBlocks(m: Message) returns (blocks: seq<Block>)
    requires m.User? || m.Assistant?
    ensures blocks == BlocksOf(m)
  {
    blocks := [];
    if m.content != "" {
      blocks := [TextBlock(m.content)];
    }
    if m.Assistant? {
      for j := 0 to |m.toolCalls|
        invariant blocks == TextOf(m.content) + Uses(m.toolCalls)[..j]
      {
        var tc := m.toolCalls[j];
        blocks := blocks + [ToolUse(tc.id, tc.name, tc.arguments)];
      }
    }
  }

  method BuildRequest(ms: seq<Message>) returns (messages: seq<WireMessage>, systemParts: seq<string>)
    ensures messages == Flush(Built(ms)).messages && ReadBack(messages) == Sent(ms)
    ensures systemParts == Built(ms).systemParts && systemParts == SystemTexts(ms)
  {
    SystemPartsBuilt(ms);
    RequestReadsBack(ms);
    systemParts, messages := [], [];
    var pendingToolResult: seq<Block> := [];
    for i := 0 to |ms|
      invariant Build(messages, pendingToolResult, systemParts) == Built(ms[..i])
    {
      assert ms[..i + 1][..i] == ms[..i];
      var m := ms[i];
      if m.System? {
        if m.content != "" {
          systemParts := systemParts + [m.content];
        }
      } else if m.Tool? {
        pendingToolResult := pendingToolResult + [ToolResult(m.toolCallID, m.content)];
      } else {
        if pendingToolResult != [] {
          messages, pendingToolResult := messages + [WireMessage(UserRole, pendingToolResult)], [];
        }
        var blocks := MessageBlocks(m);
        messages := messages + [WireMessage(RoleOf(m), blocks)];
      }
    }
    assert ms[..|ms|] == ms;
    if pendingToolResult != [] {
      messages := messages + [WireMessage(UserRole, pendingToolResult)];
    }
  }

  // ----- the request can be read back -----

  /** The non-empty texts of the system messages, in order. */
  function SystemTexts(ms: seq<Message>): seq<string> {
    if ms == [] then [] else
    var m := ms[|ms| - 1];
    SystemTexts(ms[..|ms| - 1]) + (if m.System? && m.content != "" then [m.content] else [])
  }

  lemma {:induction false} SystemPartsBuilt(ms: seq<Message>)
    ensures Built(ms).systemParts == SystemTexts(ms)
  {
    if ms != [] {
      SystemPartsBuilt(ms[..|ms| - 1]);
      AddNothing(SystemTexts(ms[..|ms| - 1]));
    }
  }

  lemma {:induction false} NoSystemTexts(ms: seq<Message>)
    requires forall m :: m in ms ==> !m.System?
    ensures SystemTexts(ms) == []
  {
    if ms != [] {
      assert ms[|ms| - 1] in ms && forall m :: m in ms[..|ms| - 1] ==> m in ms;
      NoSystemTexts(ms[..|ms| - 1]);
    }
  }

  lemma {:induction false} SystemTextsOfSum(a: seq<Message>, b: seq<Message>)
    ensures SystemTexts(a + b) == SystemTexts(a) + SystemTexts(b)
  {
    if b == [] {
      assert a + b == a;
      AddNothing(SystemTexts(a));
    } else {
      var n := |b| - 1;
      assert (a + b)[..|a + b| - 1] == a + b[..n] && (a + b)[|a + b| - 1] == b[n];
      SystemTextsOfSum(a, b[..n]);
    }
  }

  /** What this runtime sends as system text: its own prompt, once. */
  lemma PromptIsSystemText(system: string, transcript: seq<Message>)
    requires WellFormed(transcript)
    ensures Built([System(system)] + transcript).systemParts == if system == "" then [] else [system]
  {
    SystemPartsBuilt([System(system)] + transcript);
    GrammarHasNoSystem(transcript);
    NoSystemTexts(transcript);
    SystemTextsOfSum([System(system)], transcript);
    assert SystemTexts([System(system)]) == SystemTexts([]) + (if system == "" then [] else [system]);
  }

  predicate AllResults(bs: seq<Block>) {
    forall i :: 0 <= i < |bs| ==> bs[i].ToolResult?
  }

  /** Tool results read back; the wire has no place for the tool's name. */
  function ReadResults(bs: seq<Block>): seq<Message>
    requires AllResults(bs)
  {
    seq(|bs|, i requires 0 <= i < |bs| => Tool("", bs[i].toolUseID, bs[i].content))
  }

  function ReadCalls(bs: seq<Block>): seq<ToolCall>
    requires forall i :: 0 <= i < |bs| ==> bs[i].ToolUse?
  {
    seq(|bs|, i requires 0 <= i < |bs| => ToolCall(bs[i].id, bs[i].name, bs[i].arguments))
  }

  /** The messages that one message of the request stands for: an assistant message
      is a text, unless empty, and then calls; a user message is a run of results
      or a text. Anything else reads as a system message, which none of them is. */
  function ReadMessage(w: WireMessage): seq<Message> {
    var text := if w.content != [] && w.content[0].TextBlock? then w.content[0].text else "";
    var rest := if w.content != [] && w.content[0].TextBlock? then w.content[1..] else w.content;
    match w.role
    case AssistantRole =>
      if forall i :: 0 <= i < |rest| ==> rest[i].ToolUse? then [Assistant(text, ReadCalls(rest))] else [System("")]
    case UserRole =>
      if rest == [] then [User(text)]
      else if AllResults(w.content) then ReadResults(w.content)
      else [System("")]
  }

  function ReadBack(ws: seq<WireMessage>): seq<Message> {
    if ws == [] then [] else ReadBack(ws[..|ws| - 1]) + ReadMessage(ws[|ws| - 1])
  }

  /** The messages other than system messages, without the names of tool results. */
  function Sent(ms: seq<Message>): seq<Message> {
    if ms == [] then [] else Sent(ms[..|ms| - 1]) + SentOf(ms[|ms| - 1])
  }

  function SentOf(m: Message): seq<Message> {
    match m
    case System(_) => []
    case Tool(_, id, content) => [Tool("", id, content)]
    case _ => [m]
  }

  lemma ReadFlush(b: Build)
    requires AllResults(b.pending)
    ensures ReadBack(Flush(b).messages) == ReadBack(b.messages) + ReadResults(b.pending)
  {
    if b.pending == [] {
      AddNothing(ReadBack(b.messages));
    } else {
      ReadOneMore(b.messages, WireMessage(UserRole, b.pending));
    }
  }

  lemma ReadSpoken(m: Message)
    requires m.User? || m.Assistant?
    ensures ReadMessage(WireMessage(RoleOf(m), BlocksOf(m))) == [m]
  {
    if m.User? {
      assert m.content != "" ==> BlocksOf(m)[1..] == [];
    } else {
      var uses := Uses(m.toolCalls);
      if m.content == "" {
        assert BlocksOf(m) == uses;
      } else {
        assert BlocksOf(m)[1..] == uses;
      }
      assert ReadCalls(uses) == m.toolCalls;
    }
  }

  lemma ReadOneMore(ws: seq<WireMessage>, w: WireMessage)
    ensures ReadBack(ws + [w]) == ReadBack(ws) + ReadMessage(w)
  {
    assert (ws + [w])[..|ws|] == ws;
  }

  lemma ReadResultsMore(bs: seq<Block>, id: string, content: string)
    requires AllResults(bs)
    ensures AllResults(bs + [ToolResult(id, content)])
    ensures ReadResults(bs + [ToolResult(id, content)]) == ReadResults(bs) + [Tool("", id, content)]
  {
  }

  lemma ReadAddTool(b: Build, m: Message)
    requires AllResults(b.pending) && m.Tool?
    ensures AllResults(Add(b, m).pending)
    ensures ReadBack(Flush(Add(b, m)).messages) == ReadBack(Flush(b).messages) + SentOf(m)
  {
    ReadFlush(b);
    ReadResultsMore(b.pending, m.toolCallID, m.content);
    ReadFlush(Add(b, m));
    Assoc(ReadBack(b.messages), ReadResults(b.pending), SentOf(m));
  }

  /** Reading back what one more message adds. */
  lemma ReadAdd(b: Build, m: Message)
    requires AllResults(b.pending)
    ensures AllResults(Add(b, m).pending)
    ensures ReadBack(Flush(Add(b, m)).messages) == ReadBack(Flush(b).messages) + SentOf(m)
  {
    if m.System? {
      AddNothing(ReadBack(Flush(b).messages));
    } else if m.Tool? {
      ReadAddTool(b, m);
    } else {
      ReadSpoken(m);
      ReadOneMore(Flush(b).messages, WireMessage(RoleOf(m), BlocksOf(m)));
    }
  }

  /** Whatever the messages: all but the system messages can be read back from the
      request, with role, text, calls and results as they were and in order; only
      the tool's name of a result is not sent. */
  lemma {:induction false} RequestReadsBack(ms: seq<Message>)
    ensures AllResults(Built(ms).pending)
    ensures ReadBack(Flush(Built(ms)).messages) == Sent(ms)
  {
    if ms != [] {
      var n := |ms| - 1;
      RequestReadsBack(ms[..n]);
      ReadAdd(Built(ms[..n]), ms[n]);
    }
  }

  // ----- no block is lost, duplicated or reordered, whatever the messages -----

  lemma FlattenFlush(b: Build)
    ensures Flatten(Flush(b).messages) == Flatten(b.messages) + b.pending
  {
    if b.pending == [] {
      assert Flatten(b.messages) + [] == Flatten(b.messages);
    }
  }

  /** Every block of what is built so far, in order. */
  function BlocksIn(b: Build): seq<Block> {
    Flatten(b.messages) + b.pending
  }

  lemma FlattenTurn(b: Build, w: WireMessage)
    ensures BlocksIn(Build(Flush(b).messages + [w], [], b.systemParts)) == BlocksIn(b) + w.content
  {
    FlattenFlush(b);
    AddNothing(Flatten(Flush(b).messages + [w]));
  }

  lemma FlattenAdd(b: Build, m: Message)
    ensures BlocksIn(Add(b, m)) == BlocksIn(b) + BlocksOf(m)
  {
    if m.System? {
      AddNothing(BlocksIn(b));
    } else if m.Tool? {
      Assoc(Flatten(b.messages), b.pending, BlocksOf(m));
    } else {
      FlattenTurn(b, WireMessage(RoleOf(m), BlocksOf(m)));
    }
  }

  lemma {:induction false} BlocksBuilt(ms: seq<Message>)
    ensures BlocksIn(Built(ms)) == AllBlocks(ms)
  {
    if ms != [] {
      BlocksBuilt(ms[..|ms| - 1]);
      FlattenAdd(Built(ms[..|ms| - 1]), ms[|ms| - 1]);
    }
  }

  /** The request holds the blocks of the messages, each once and in order. */
  lemma BlocksConserved(ms: seq<Message>)
    ensures Flatten(Flush(Built(ms)).messages) == AllBlocks(ms)
  {
    BlocksBuilt(ms);
    FlattenFlush(Built(ms));
  }

  // ----- tool use is answered at once -----

  predicate UsesTools(w: WireMessage) {
    exists b :: b in w.content && b.ToolUse?
  }

  function UseIds(bs: seq<Block>): seq<string> {
    if bs == [] then [] else (if bs[0].ToolUse? then [bs[0].id] else []) + UseIds(bs[1..])
  }

  function ResultIds(bs: seq<Block>): seq<string> {
    if bs == [] then [] else (if bs[0].ToolResult? then [bs[0].toolUseID] else []) + ResultIds(bs[1..])
  }

  /** Every message with tool_use blocks is an assistant message, and the next
      one is a user message of exactly the matching tool_result blocks. */
  ghost predicate AnsweredAtOnce(ws: seq<WireMessage>) {
    forall i :: 0 <= i < |ws| && UsesTools(ws[i]) ==> AnsweredAt(ws, i)
  }

  ghost predicate AnsweredAt(ws: seq<WireMessage>, i: nat)
    requires i < |ws|
  {
    && ws[i].role == AssistantRole
    && i + 1 < |ws|
    && ws[i + 1].role == UserRole
    && (forall b :: b in ws[i + 1].content ==> b.ToolResult?)
    && ResultIds(ws[i + 1].content) == UseIds(ws[i].content)
  }

  lemma {:induction false} UseIdsOf(bs: seq<Block>, calls: seq<ToolCall>)
    requires bs == Uses(calls)
    ensures UseIds(bs) == seq(|calls|, i requires 0 <= i < |calls| => calls[i].id)
  {
    if calls != [] {
      assert bs[1..] == Uses(calls[1..]);
      UseIdsOf(bs[1..], calls[1..]);
    }
  }

  function Results(ms: seq<Message>): (bs: seq<Block>)
    requires forall m :: m in ms ==> m.Tool?
    ensures |bs| == |ms|
    ensures forall i :: 0 <= i < |ms| ==> bs[i] == ToolResult(ms[i].toolCallID, ms[i].content)
  {
    seq(|ms|, i requires 0 <= i < |ms| => assert ms[i] in ms; ToolResult(ms[i].toolCallID, ms[i].content))
  }

  lemma {:induction false} ResultIdsOf(bs: seq<Block>, ms: seq<Message>)
    requires forall m :: m in ms ==> m.Tool?
    requires bs == Results(ms)
    ensures ResultIds(bs) == seq(|ms|, i requires 0 <= i < |ms| => assert ms[i] in ms; ms[i].toolCallID)
  {
    if ms != [] {
      assert bs[1..] == Results(ms[1..]);
      ResultIdsOf(bs[1..], ms[1..]);
    }
  }

  /** The loop from any starting state. */
  function AddAll(b: Build, ms: seq<Message>): Build
    decreases |ms|
  {
    if ms == [] then b else AddAll(Add(b, ms[0]), ms[1..])
  }

  lemma {:induction false} AddAllLast(b: Build, ms: seq<Message>, m: Message)
    ensures AddAll(b, ms + [m]) == Add(AddAll(b, ms), m)
    decreases |ms|
  {
    if ms == [] {
    } else {
      assert (ms + [m])[1..] == ms[1..] + [m];
      AddAllLast(Add(b, ms[0]), ms[1..], m);
    }
  }

  lemma {:induction false} BuiltIsAddAll(ms: seq<Message>)
    ensures Built(ms) == AddAll(Build([], [], []), ms)
  {
    if ms != [] {
      var n := |ms| - 1;
      BuiltIsAddAll(ms[..n]);
      AddAllLast(Build([], [], []), ms[..n], ms[n]);
      assert ms[..n] + [ms[n]] == ms;
    }
  }

  lemma {:induction false} AddAllSplit(b: Build, a: seq<Message>, ms: seq<Message>)
    ensures AddAll(b, a + ms) == AddAll(AddAll(b, a), ms)
    decreases |a|
  {
    if a == [] {
      assert a + ms == ms;
    } else {
      assert (a + ms)[1..] == a[1..] + ms;
      AddAllSplit(Add(b, a[0]), a[1..], ms);
    }
  }

  lemma {:induction false} AddResults(b: Build, rs: seq<Message>)
    requires forall m :: m in rs ==> m.Tool?
    ensures AddAll(b, rs) == b.(pending := b.pending + Results(rs))
    decreases |rs|
  {
    if rs == [] {
      AddNothing(b.pending);
    } else {
      assert rs[0] in rs;
      AddResults(Add(b, rs[0]), rs[1..]);
      var first := [ToolResult(rs[0].toolCallID, rs[0].content)];
      assert first + Results(rs[1..]) == Results(rs);
      Assoc(b.pending, first, Results(rs[1..]));
    }
  }

  lemma TwoMore(ws: seq<WireMessage>, content: string, calls: seq<ToolCall>, rs: seq<Message>)
    requires AnsweredAtOnce(ws) && calls != [] && Answers(calls, rs)
    ensures forall m :: m in rs ==> m.Tool?
    ensures AnsweredAtOnce(ws + [WireMessage(AssistantRole, TextOf(content) + Uses(calls))] +
            [WireMessage(UserRole, Results(rs))])
  {
    assert forall m :: m in rs ==> m.Tool?;
    var a, u := WireMessage(AssistantRole, TextOf(content) + Uses(calls)), WireMessage(UserRole, Results(rs));
    var all := ws + [a] + [u];
    UseIdsOf(Uses(calls), calls);
    ResultIdsOf(Results(rs), rs);
    assert content != "" ==> (TextOf(content) + Uses(calls))[1..] == Uses(calls);
    assert content == "" ==> TextOf(content) + Uses(calls) == Uses(calls);
    assert UseIds(a.content) == UseIds(Uses(calls));
    assert ResultIds(u.content) == UseIds(a.content);
    forall i | 0 <= i < |all| && UsesTools(all[i]) ensures AnsweredAt(all, i) {
      if i < |ws| { assert AnsweredAt(ws, i); }
      assert i == |ws| ==> all[i] == a && all[i + 1] == u;
    }
  }

  lemma {:induction false} WellFormedAdds(b: Build, ms: seq<Message>)
    requires AnsweredAtOnce(Flush(b).messages) && WellFormed(ms)
    ensures AnsweredAtOnce(Flush(AddAll(b, ms)).messages)
    decreases |ms|
  {
    if ms == [] {
    } else if ms[0].User? || ms[0].toolCalls == [] {
      WellFormedAdds(Add(b, ms[0]), ms[1..]);
    } else {
      var calls := ms[0].toolCalls;
      var n := |calls| + 1;
      var b1 := Add(b, ms[0]);
      var results, rest := ms[1..n], ms[n..];
      Rejoin(ms, 1, n);
      AddAllSplit(b1, results, rest);
      AnsweredCallsAdd(b, ms[0].content, calls, results);
      WellFormedAdds(AddAll(b1, results), rest);
    }
  }

  lemma AnsweredCallsAdd(b: Build, content: string, calls: seq<ToolCall>, rs: seq<Message>)
    requires AnsweredAtOnce(Flush(b).messages) && calls != [] && Answers(calls, rs)
    ensures AnsweredAtOnce(Flush(AddAll(Add(b, Assistant(content, calls)), rs)).messages)
  {
    TwoMore(Flush(b).messages, content, calls, rs);
    var b1 := Add(b, Assistant(content, calls));
    AddResults(b1, rs);
    assert [] + Results(rs) == Results(rs);
    assert Flush(AddAll(b1, rs)).messages == b1.messages + [WireMessage(UserRole, Results(rs))];
  }

  /** For every transcript in the grammar, behind any system prompt, the request
      answers every tool use at once. */
  lemma RequestAnswersAtOnce(system: string, transcript: seq<Message>)
    requires WellFormed(transcript)
    ensures AnsweredAtOnce(Flush(Built([System(system)] + transcript)).messages)
  {
    var ms := [System(system)] + transcript;
    BuiltIsAddAll(ms);
    assert ms[1..] == transcript;
    WellFormedAdds(Add(Build([], [], []), System(system)), transcript);
  }

  // ----- when the request alternates -----

  ghost predicate Alternates(ws: seq<WireMessage>) {
    forall i, j :: 0 <= i && j == i + 1 < |ws| ==> ws[i].role != ws[j].role
  }

  /** No two neighbours on the same side, except inside a run of tool results. */
  ghost predicate SidesChange(ms: seq<Message>) {
    forall i, j :: 0 <= i && j == i + 1 < |ms| ==> RoleOf(ms[i]) != RoleOf(ms[j]) || (ms[i].Tool? && ms[j].Tool?)
  }

  lemma AlternatesMore(ws: seq<WireMessage>, w: WireMessage)
    ensures Alternates(ws + [w]) <==> Alternates(ws) && (ws == [] || ws[|ws| - 1].role != w.role)
  {
    var all := ws + [w];
    if Alternates(all) {
      assert forall i :: 0 <= i < |ws| ==> all[i] == ws[i];
      assert ws != [] ==> all[|ws| - 1].role != all[|ws|].role;
    }
  }

  lemma {:induction false} SpokenAlternation(ms: seq<Message>)
    requires forall m :: m in ms ==> !m.System?
    ensures Alternates(Flush(Built(ms)).messages) <==> SidesChange(ms)
  {
    if ms != [] {
      var n := |ms| - 1;
      var before, m := ms[..n], ms[n];
      assert m in ms && forall x :: x in before ==> x in ms;
      SpokenAlternation(before);
      SidesChangeLast(ms);
      AlternationStep(Built(before), m);
    }
  }

  /** The messages other than system messages, in order. */
  function Spoken(ms: seq<Message>): seq<Message> {
    if ms == [] then []
    else Spoken(ms[..|ms| - 1]) + (if ms[|ms| - 1].System? then [] else [ms[|ms| - 1]])
  }

  lemma {:induction false} SpokenHasNoSystem(ms: seq<Message>)
    ensures forall m :: m in Spoken(ms) ==> !m.System?
  {
    if ms != [] { SpokenHasNoSystem(ms[..|ms| - 1]); }
  }

  /** System messages leave no trace among the request's messages. */
  lemma {:induction false} SpokenBuilds(ms: seq<Message>)
    ensures Built(ms).messages == Built(Spoken(ms)).messages && Built(ms).pending == Built(Spoken(ms)).pending
  {
    if ms != [] {
      var n := |ms| - 1;
      SpokenBuilds(ms[..n]);
      if ms[n].System? {
        AddNothing(Spoken(ms[..n]));
      } else {
        assert Spoken(ms)[..|Spoken(ms)| - 1] == Spoken(ms[..n]);
      }
    }
  }

  /** Batching tool results does not make every request alternate between user
      and assistant: it alternates exactly when the messages, system messages
      aside, already change sides everywhere but inside a run of tool results. */
  lemma AlternationCondition(ms: seq<Message>)
    ensures Alternates(Flush(Built(ms)).messages) <==> SidesChange(Spoken(ms))
  {
    SpokenBuilds(ms);
    SpokenHasNoSystem(ms);
    SpokenAlternation(Spoken(ms));
  }

  lemma {:induction false} NothingSpokenIsLost(system: string, ms: seq<Message>)
    requires forall m :: m in ms ==> !m.System?
    ensures Spoken([System(system)] + ms) == ms
  {
    if ms == [] {
      assert [System(system)] + ms == [] + [System(system)];
    } else {
      var n := |ms| - 1;
      assert ms[n] in ms && forall m :: m in ms[..n] ==> m in ms;
      NothingSpokenIsLost(system, ms[..n]);
      assert ms == ms[..n] + [ms[n]];
      Assoc([System(system)], ms[..n], [ms[n]]);
    }
  }

  lemma {:induction false} GrammarHasNoSystem(ms: seq<Message>)
    requires WellFormed(ms)
    ensures forall m :: m in ms ==> !m.System?
    decreases |ms|
  {
    if ms != [] {
      var n := if ms[0].User? then 1 else |ms[0].toolCalls| + 1;
      GrammarHasNoSystem(ms[n..]);
      forall i | 0 <= i < |ms| ensures !ms[i].System? {
        assert 1 <= i < n ==> ms[i] == ms[1..n][i - 1];
        assert i >= n ==> ms[i] == ms[n..][i - n];
      }
    }
  }

  /** A request of this runtime, system prompt first, alternates exactly when its
      transcript changes sides. */
  lemma RequestAlternates(system: string, transcript: seq<Message>)
    requires WellFormed(transcript)
    ensures Alternates(Flush(Built([System(system)] + transcript)).messages) <==> SidesChange(transcript)
  {
    GrammarHasNoSystem(transcript);
    NothingSpokenIsLost(system, transcript);
    AlternationCondition([System(system)] + transcript);
  }

  lemma AlternationStep(b: Build, m: Message)
    requires !m.System?
    ensures var ws := Flush(b).messages;
            Alternates(Flush(Add(b, m)).messages) <==>
              Alternates(ws) && (ws == [] || ws[|ws| - 1].role != RoleOf(m) || (m.Tool? && b.pending != []))
  {
    AddedMessages(b, m);
    if m.Tool? && b.pending != [] {
      AlternatesMore(b.messages, WireMessage(UserRole, b.pending));
      AlternatesMore(b.messages, WireMessage(UserRole, b.pending + BlocksOf(m)));
    } else {
      AlternatesMore(Flush(b).messages, WireMessage(RoleOf(m), BlocksOf(m)));
    }
  }

  /** The messages once one more message has been added: a tool result joins the
      pending run, anything else starts a message of its own. */
  lemma AddedMessages(b: Build, m: Message)
    requires !m.System?
    ensures Flush(Add(b, m)).messages ==
            if m.Tool? && b.pending != [] then b.messages + [WireMessage(UserRole, b.pending + BlocksOf(m))]
            else Flush(b).messages + [WireMessage(RoleOf(m), BlocksOf(m))]
  {
    if m.Tool? && b.pending == [] { assert b.pending + BlocksOf(m) == BlocksOf(m); }
  }

  lemma SidesChangeLast(ms: seq<Message>)
    requires ms != []
    ensures var n := |ms| - 1;
            SidesChange(ms) <==>
              && SidesChange(ms[..n])
              && (n == 0 || RoleOf(ms[n - 1]) != RoleOf(ms[n]) || (ms[n - 1].Tool? && ms[n].Tool?))
  {
    var n := |ms| - 1;
    assert forall i :: 0 <= i < n ==> ms[..n][i] == ms[i];
  }

  /** A transcript in the grammar whose request does not alternate, behind any
      system prompt: a turn that ended early after its tool results, followed by
      the next user message. */
  lemma GrammarDoesNotAlternate(system: string)
    ensures var ms := [User("a"), Assistant("", [ToolCall("1", "list_task", "")]),
            Tool("list_task", "1", "[]"), User("b")];
            WellFormed(ms) && !Alternates(Flush(Built([System(system)] + ms)).messages)
  {
    var ms := [User("a"), Assistant("", [ToolCall("1", "list_task", "")]), Tool("list_task", "1", "[]"), User("b")];
    AppendCalls([User("a")], "", [ToolCall("1", "list_task", "")], [Tool("list_task", "1", "[]")]);
    AppendUser([User("a")] + ([Assistant("", [ToolCall("1", "list_task", "")])] + [Tool("list_task", "1", "[]")]), "b");
    assert ms == [User("a")] +
      ([Assistant("", [ToolCall("1", "list_task", "")])] + [Tool("list_task", "1", "[]")]) + [User("b")];
    RequestAlternates(system, ms);
    assert RoleOf(ms[2]) == RoleOf(ms[3]) && ms[3].User?;
  }
}
