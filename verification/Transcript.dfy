// The transcript builder historyNotificationsToMessages: a fold over notifications that merges
// streamed chunks and keeps one message per tool call.
module Transcript {
  import opened Wrappers
  import opened Text
  import opened Seqs

  datatype Json = Json(text: string)
  datatype Role = User | Assistant | Thought | Tool | Plan

  // Generated ids are fresh; indexed ids name a role and a position; a call id is the agent's own.
  datatype MessageId = Uuid(n: nat) | Indexed(role: Role, position: nat) | CallId(id: string)

  datatype ToolInfo = ToolInfo(
    name: string, status: string, kind: Option<string>,
    rawInput: Option<map<string, Json>>, rawOutput: Option<Json>, delegatedTaskId: Option<string>)

  datatype ChatMessage = ChatMessage(
    id: MessageId, role: Role, content: string, toolCallId: Option<string>, tool: Option<ToolInfo>)

  // A notification after its fields have been read. Texts of tool output and labels are given.
  datatype Notification =
    | NoKind
    | UserMessage(text: string)
    | AgentMessage(text: string)
    | AgentChunk(text: string)
    | ThoughtChunk(text: string)
    | ToolCall(callId: Option<string>, content: string, info: ToolInfo)
    | ToolCallUpdate(callId: Option<string>, outputParts: seq<string>, name: string, status: Option<string>,
                     kind: Option<string>, rawInput: Option<map<string, Json>>, rawOutput: Option<Json>,
                     delegatedTaskId: Option<string>)
    | PlanUpdate(text: string)
    | OtherKind(name: string)

  datatype Kind =
    | UserKind | AgentKind | AgentChunkKind | ThoughtChunkKind | ToolKind | ToolUpdateKind | PlanKind
    | Unknown(name: string)

  datatype Builder = Builder(
    messages: seq<ChatMessage>,
    agentStream: Option<nat>,
    thoughtStream: Option<nat>,
    lastKind: Option<Kind>,
    nextUuid: nat)

  const Start := Builder([], None, None, None, 0)

  function KindOf(e: Notification): Kind
    requires !e.NoKind?
  {
    match e
    case UserMessage(_) => UserKind
    case AgentMessage(_) => AgentKind
    case AgentChunk(_) => AgentChunkKind
    case ThoughtChunk(_) => ThoughtChunkKind
    case ToolCall(_, _, _) => ToolKind
    case ToolCallUpdate(_, _, _, _, _, _, _, _) => ToolUpdateKind
    case PlanUpdate(_) => PlanKind
    case OtherKind(n) => Unknown(n)
  }

  // ---- Text helpers ----

  // The text without the carriage returns and newlines it starts with.
  function StripLeadingNewlines(text: string): string {
    if text != "" && text[0] in "\r\n" then StripLeadingNewlines(text[1..]) else text
  }

  function TrimEnd(s: string): string {
    if s != "" && IsSpace(s[|s| - 1]) then TrimEnd(s[..|s| - 1]) else s
  }

  // Each run of white space becomes one blank.
  function Collapse(s: string): string {
    if s == "" then ""
    else if !IsSpace(s[0]) then [s[0]] + Collapse(s[1..])
    else if |s| > 1 && IsSpace(s[1]) then Collapse(s[1..])
    else " " + Collapse(s[1..])
  }

  function NormalizeText(s: string): string {
    TrimEnd(TrimStart(Collapse(s)))
  }

  // ---- Steps ----

  function FindId(messages: seq<ChatMessage>, id: MessageId): (i: nat)
    ensures i <= |messages| && (i < |messages| ==> messages[i].id == id)
    ensures forall k :: 0 <= k < i ==> messages[k].id != id
  {
    if messages == [] || messages[0].id == id then 0 else 1 + FindId(messages[1..], id)
  }

  function FindCall(messages: seq<ChatMessage>, callId: string): (i: nat)
    ensures i <= |messages| && (i < |messages| ==> messages[i].toolCallId == Some(callId))
    ensures forall k :: 0 <= k < i ==> messages[k].toolCallId != Some(callId)
  {
    if messages == [] || messages[0].toolCallId == Some(callId) then 0 else 1 + FindCall(messages[1..], callId)
  }

  // The messages, the stream id and the next fresh id after a chunk.
  function AppendStreamingChunk(messages: seq<ChatMessage>, stream: Option<nat>, continues: bool, role: Role,
                                text: string, nextUuid: nat): (seq<ChatMessage>, nat, nat)
  {
    var open := if continues then stream else None;
    var id := if open.Some? then open.value else nextUuid;
    var next := if open.Some? then nextUuid else nextUuid + 1;
    var i := FindId(messages, Uuid(id));
    if i < |messages| then
      (messages[i := messages[i].(content := messages[i].content + text)], id, next)
    else
      var first := if open.Some? then text else StripLeadingNewlines(text);
      (messages + [ChatMessage(Uuid(id), role, first, None, None)], id, next)
  }

  // A user or consolidated agent message, unless it repeats the last one up to white space.
  function AppendText(messages: seq<ChatMessage>, role: Role, text: string): seq<ChatMessage> {
    if text == "" then messages
    else if messages != [] && messages[|messages| - 1].role == role
         && NormalizeText(messages[|messages| - 1].content) == NormalizeText(text) then messages
    else messages + [ChatMessage(Indexed(role, |messages|), role, text, None, None)]
  }

  function AppendToolCall(b: Builder, callId: Option<string>, content: string, info: ToolInfo): Builder {
    if callId.Some? && callId.value != "" && FindCall(b.messages, callId.value) < |b.messages| then b
    else
      var id := if callId.Some? then CallId(callId.value) else Uuid(b.nextUuid);
      b.(messages := b.messages + [ChatMessage(id, Tool, content, callId, Some(info))],
         nextUuid := if callId.Some? then b.nextUuid else b.nextUuid + 1)
  }

  function OrElse<T>(a: Option<T>, b: Option<T>): Option<T> {
    if a.Some? then a else b
  }

  function MergedInfo(known: ToolInfo, e: Notification): ToolInfo
    requires e.ToolCallUpdate?
  {
    var kind := OrElse(e.kind, known.kind);
    var rawInput :=
      if kind == Some("request-permissions") && known.rawInput.Some?
      then Some(known.rawInput.value + if e.rawInput.Some? then e.rawInput.value else map[])
      else OrElse(e.rawInput, known.rawInput);
    ToolInfo(e.name, if e.status.Some? then e.status.value else known.status, kind, rawInput,
             OrElse(e.rawOutput, known.rawOutput), OrElse(e.delegatedTaskId, known.delegatedTaskId))
  }

  function ApplyToolUpdate(b: Builder, e: Notification): Builder
    requires e.ToolCallUpdate?
  {
    if e.callId.None? || e.callId.value == "" then b
    else
      var i := FindCall(b.messages, e.callId.value);
      if i < |b.messages| then
        var known := b.messages[i];
        var info := if known.tool.Some? then known.tool.value else ToolInfo("", "", None, None, None, None);
        b.(messages := b.messages[i := known.(
             tool := Some(MergedInfo(info, e)),
             content := if e.outputParts != [] then e.name + "\n\nOutput:\n" + Join(e.outputParts, "\n") else known.content)])
      else
        var joined := Join(e.outputParts, "\n");
        var content := if joined != "" then joined
                       else "Tool " + if e.status.Some? then e.status.value else "update";
        var info := ToolInfo(e.name, if e.status.Some? then e.status.value else "completed",
                             e.kind, e.rawInput, e.rawOutput, e.delegatedTaskId);
        b.(messages := b.messages + [ChatMessage(Uuid(b.nextUuid), Tool, content, e.callId, Some(info))],
           nextUuid := b.nextUuid + 1)
  }

  function Apply(b: Builder, e: Notification): Builder
    requires !e.NoKind?
  {
    match e
    case UserMessage(text) => b.(messages := AppendText(b.messages, User, text))
    case AgentMessage(text) => b.(messages := AppendText(b.messages, Assistant, text))
    case AgentChunk(text) =>
      if text == "" then b
      else
        var (messages, id, next) := AppendStreamingChunk(
          b.messages, b.agentStream, b.lastKind == Some(AgentChunkKind), Assistant, text, b.nextUuid);
        b.(messages := messages, agentStream := Some(id), thoughtStream := None, nextUuid := next)
    case ThoughtChunk(text) =>
      if text == "" then b
      else
        var (messages, id, next) := AppendStreamingChunk(
          b.messages, b.thoughtStream, b.lastKind == Some(ThoughtChunkKind), Thought, text, b.nextUuid);
        b.(messages := messages, thoughtStream := Some(id), nextUuid := next)
    case ToolCall(callId, content, info) => AppendToolCall(b, callId, content, info)
    case ToolCallUpdate(_, _, _, _, _, _, _, _) => ApplyToolUpdate(b, e)
    case PlanUpdate(text) =>
      b.(messages := b.messages + [ChatMessage(Uuid(b.nextUuid), Plan, text, None, None)], nextUuid := b.nextUuid + 1)
    case OtherKind(_) => b
  }

  function Step(b: Builder, e: Notification): Builder {
    if e.NoKind? then b else Apply(b, e).(lastKind := Some(KindOf(e)))
  }

  function Fold(b: Builder, history: seq<Notification>): Builder
    decreases |history|
  {
    if history == [] then b else Fold(Step(b, history[0]), history[1..])
  }

  // ---- Invariants ----

  // Generated ids are below the counter and used once; a stream id names a message of its role.
  ghost predicate IdsOk(b: Builder) {
    && (forall i :: 0 <= i < |b.messages| && b.messages[i].id.Uuid? ==> b.messages[i].id.n < b.nextUuid)
    && (forall i, j :: 0 <= i < j < |b.messages| && b.messages[i].id.Uuid? ==> b.messages[i].id != b.messages[j].id)
    && StreamOk(b, b.agentStream, Assistant) && StreamOk(b, b.thoughtStream, Thought)
  }

  ghost predicate StreamOk(b: Builder, stream: Option<nat>, role: Role) {
    stream.Some? ==> exists i :: 0 <= i < |b.messages| && b.messages[i].id == Uuid(stream.value) && b.messages[i].role == role
  }

  // At most one message per non-empty tool call id; only tool messages carry one.
  ghost predicate OneMessagePerCall(messages: seq<ChatMessage>) {
    && (forall i :: 0 <= i < |messages| && messages[i].toolCallId.Some? ==> messages[i].role == Tool)
    && forall i, j :: 0 <= i < j < |messages| && messages[i].toolCallId.Some? && messages[i].toolCallId.value != "" ==>
         messages[i].toolCallId != messages[j].toolCallId
  }

  // No two adjacent user messages agree up to white space.
  ghost predicate NoRepeatedUser(messages: seq<ChatMessage>) {
    forall i, j :: 0 <= i && j == i + 1 < |messages| && messages[i].role == User && messages[j].role == User ==>
      NormalizeText(messages[i].content) != NormalizeText(messages[j].content)
  }

  ghost predicate Inv(b: Builder) {
    IdsOk(b) && OneMessagePerCall(b.messages) && NoRepeatedUser(b.messages)
  }

  // Two messages are the same entry of the transcript: id, role and call id never change.
  predicate SameEntry(a: ChatMessage, b: ChatMessage) {
    a.id == b.id && a.role == b.role && a.toolCallId == b.toolCallId
  }

  // One step appends a message, rewrites the content of one that is not a user's, or does nothing.
  ghost predicate OneChange(a: seq<ChatMessage>, b: seq<ChatMessage>) {
    || b == a
    || (exists m :: b == a + [m])
    || exists i, m :: 0 <= i < |a| && b == a[i := m] && SameEntry(a[i], m) && m.role != User
  }

  lemma RewriteKeeps(a: seq<ChatMessage>, i: nat, m: ChatMessage)
    requires i < |a| && SameEntry(a[i], m) && m.role != User
    requires OneMessagePerCall(a) && NoRepeatedUser(a)
    ensures OneMessagePerCall(a[i := m]) && NoRepeatedUser(a[i := m])
  {
  }

  lemma AppendCall(a: seq<ChatMessage>, m: ChatMessage)
    requires OneMessagePerCall(a) && (m.toolCallId.Some? ==> m.role == Tool)
    requires m.toolCallId.Some? && m.toolCallId.value != "" ==>
      forall k :: 0 <= k < |a| ==> a[k].toolCallId != m.toolCallId
    ensures OneMessagePerCall(a + [m])
  {
  }

  lemma AppendUser(a: seq<ChatMessage>, m: ChatMessage)
    requires NoRepeatedUser(a)
    requires m.role == User && a != [] && a[|a| - 1].role == User ==>
      NormalizeText(a[|a| - 1].content) != NormalizeText(m.content)
    ensures NoRepeatedUser(a + [m])
  {
    forall i, j | 0 <= i && j == i + 1 < |a + [m]| && (a + [m])[i].role == User && (a + [m])[j].role == User
      ensures NormalizeText((a + [m])[i].content) != NormalizeText((a + [m])[j].content)
    {
      if j < |a| {
        assert (a + [m])[i] == a[i] && (a + [m])[j] == a[j];
      }
    }
  }

  lemma AppendKeeps(a: seq<ChatMessage>, m: ChatMessage)
    requires OneMessagePerCall(a) && NoRepeatedUser(a)
    requires m.toolCallId.Some? ==> m.role == Tool
    requires m.toolCallId.Some? && m.toolCallId.value != "" ==> FindCall(a, m.toolCallId.value) == |a|
    requires m.role == User && a != [] && a[|a| - 1].role == User ==>
      NormalizeText(a[|a| - 1].content) != NormalizeText(m.content)
    ensures OneMessagePerCall(a + [m]) && NoRepeatedUser(a + [m])
  {
    AppendCall(a, m);
    AppendUser(a, m);
  }

  lemma StreamGrows(b: Builder, d: Builder, stream: Option<nat>, role: Role)
    requires StreamOk(b, stream, role) && |b.messages| <= |d.messages|
    requires forall i :: 0 <= i < |b.messages| ==> SameEntry(b.messages[i], d.messages[i])
    ensures StreamOk(d, stream, role)
  {
    if stream.Some? {
      var i :| 0 <= i < |b.messages| && b.messages[i].id == Uuid(stream.value) && b.messages[i].role == role;
      assert d.messages[i].id == Uuid(stream.value) && d.messages[i].role == role;
    }
  }

  // Streaming either extends the message of the open stream or opens a new message at the end.
  lemma ChunkChanges(b: Builder, stream: Option<nat>, continues: bool, role: Role, text: string)
    requires Inv(b) && StreamOk(b, stream, role) && role != User && role != Tool
    ensures var (messages, id, next) := AppendStreamingChunk(b.messages, stream, continues, role, text, b.nextUuid);
            && (if continues && stream.Some?
                then id == stream.value && next == b.nextUuid
                     && exists i :: 0 <= i < |b.messages| && b.messages[i].id == Uuid(id) && b.messages[i].role == role
                          && messages == b.messages[i := b.messages[i].(content := b.messages[i].content + text)]
                else id == b.nextUuid && next == b.nextUuid + 1
                     && messages == b.messages + [ChatMessage(Uuid(id), role, StripLeadingNewlines(text), None, None)])
  {
    var open := if continues then stream else None;
    var id := if open.Some? then open.value else b.nextUuid;
    var i := FindId(b.messages, Uuid(id));
    if open.Some? {
      var k :| 0 <= k < |b.messages| && b.messages[k].id == Uuid(id) && b.messages[k].role == role;
      assert i <= k;
      assert i == k;
    } else {
      assert i == |b.messages|;
    }
  }

  lemma ChunkKeepsEntries(b: Builder, stream: Option<nat>, continues: bool, role: Role, text: string)
    requires Inv(b) && StreamOk(b, stream, role) && role != User && role != Tool
    ensures var messages := AppendStreamingChunk(b.messages, stream, continues, role, text, b.nextUuid).0;
            && OneChange(b.messages, messages) && OneMessagePerCall(messages) && NoRepeatedUser(messages)
            && |b.messages| <= |messages| && forall i :: 0 <= i < |b.messages| ==> SameEntry(b.messages[i], messages[i])
  {
    var (messages, id, next) := AppendStreamingChunk(b.messages, stream, continues, role, text, b.nextUuid);
    ChunkChanges(b, stream, continues, role, text);
    if continues && stream.Some? {
      var i :| 0 <= i < |b.messages| && b.messages[i].id == Uuid(id) && b.messages[i].role == role
               && messages == b.messages[i := b.messages[i].(content := b.messages[i].content + text)];
      RewriteKeeps(b.messages, i, messages[i]);
      assert messages == b.messages[i := messages[i]];
    } else {
      AppendKeeps(b.messages, messages[|b.messages|]);
    }
  }

  lemma ChunkKeepsIds(b: Builder, stream: Option<nat>, continues: bool, role: Role, text: string)
    requires Inv(b) && StreamOk(b, stream, role) && role != User && role != Tool
    ensures var (messages, id, next) := AppendStreamingChunk(b.messages, stream, continues, role, text, b.nextUuid);
            && (exists i :: 0 <= i < |messages| && messages[i].id == Uuid(id) && messages[i].role == role)
            && (forall i :: 0 <= i < |messages| && messages[i].id.Uuid? ==> messages[i].id.n < next)
            && forall i, j :: 0 <= i < j < |messages| && messages[i].id.Uuid? ==> messages[i].id != messages[j].id
  {
    var (messages, id, next) := AppendStreamingChunk(b.messages, stream, continues, role, text, b.nextUuid);
    ChunkChanges(b, stream, continues, role, text);
    if continues && stream.Some? {
      var i :| 0 <= i < |b.messages| && b.messages[i].id == Uuid(id) && b.messages[i].role == role
               && messages == b.messages[i := b.messages[i].(content := b.messages[i].content + text)];
      assert messages[i].id == Uuid(id) && messages[i].role == role;
    } else {
      assert messages[|b.messages|].id == Uuid(id) && messages[|b.messages|].role == role;
    }
  }

  // A message whose id is not generated.
  lemma IndexedPushKeepsInv(b: Builder, m: ChatMessage)
    requires Inv(b) && !m.id.Uuid? && m.toolCallId.None?
    requires m.role == User && b.messages != [] && b.messages[|b.messages| - 1].role == User ==>
      NormalizeText(b.messages[|b.messages| - 1].content) != NormalizeText(m.content)
    ensures Inv(b.(messages := b.messages + [m])) && OneChange(b.messages, b.messages + [m])
  {
    hide OneMessagePerCall, NoRepeatedUser, NormalizeText;
    var d := b.(messages := b.messages + [m]);
    AppendKeeps(b.messages, m);
    StreamGrows(b, d, b.agentStream, Assistant);
    StreamGrows(b, d, b.thoughtStream, Thought);
  }

  lemma TextKeepsInv(b: Builder, role: Role, text: string)
    requires Inv(b) && role in {User, Assistant}
    ensures var d := b.(messages := AppendText(b.messages, role, text));
            Inv(d) && OneChange(b.messages, d.messages)
  {
    hide Inv, NormalizeText;
    if AppendText(b.messages, role, text) != b.messages {
      IndexedPushKeepsInv(b, ChatMessage(Indexed(role, |b.messages|), role, text, None, None));
    }
  }

  // A message of a role other than user with a fresh or foreign id may always be appended.
  lemma PushKeepsInv(b: Builder, m: ChatMessage, next: nat)
    requires Inv(b) && m.role != User && b.nextUuid <= next
    requires m.id.Uuid? ==> m.id.n == b.nextUuid && next == b.nextUuid + 1
    requires m.toolCallId.Some? ==> m.role == Tool
    requires m.toolCallId.Some? && m.toolCallId.value != "" ==> FindCall(b.messages, m.toolCallId.value) == |b.messages|
    ensures Inv(b.(messages := b.messages + [m], nextUuid := next))
    ensures OneChange(b.messages, b.messages + [m])
  {
    var d := b.(messages := b.messages + [m], nextUuid := next);
    AppendKeeps(b.messages, m);
    StreamGrows(b, d, b.agentStream, Assistant);
    StreamGrows(b, d, b.thoughtStream, Thought);
  }

  lemma ToolUpdateKeepsInv(b: Builder, e: Notification)
    requires Inv(b) && e.ToolCallUpdate?
    ensures Inv(ApplyToolUpdate(b, e)) && OneChange(b.messages, ApplyToolUpdate(b, e).messages)
  {
    var d := ApplyToolUpdate(b, e);
    if e.callId.Some? && e.callId.value != "" {
      var i := FindCall(b.messages, e.callId.value);
      if i < |b.messages| {
        RewriteKeeps(b.messages, i, d.messages[i]);
        assert d.messages == b.messages[i := d.messages[i]] && SameEntry(b.messages[i], d.messages[i]);
        StreamGrows(b, d, b.agentStream, Assistant);
        StreamGrows(b, d, b.thoughtStream, Thought);
      } else {
        PushKeepsInv(b, d.messages[|b.messages|], d.nextUuid);
      }
    }
  }

  lemma StreamingKeepsInv(b: Builder, role: Role, text: string)
    requires Inv(b) && role in {Assistant, Thought}
    ensures var d := Step(b, Chunk(role, text));
            Inv(d) && OneChange(b.messages, d.messages)
  {
    if text != "" {
      var d := Step(b, Chunk(role, text));
      ChunkKeepsEntries(b, StreamOf(b, role), b.lastKind == Some(ChunkKind(role)), role, text);
      ChunkKeepsIds(b, StreamOf(b, role), b.lastKind == Some(ChunkKind(role)), role, text);
      StreamGrows(b, d, b.agentStream, Assistant);
    }
  }

  lemma ToolCallKeepsInv(b: Builder, e: Notification)
    requires Inv(b) && e.ToolCall?
    ensures Inv(Step(b, e)) && OneChange(b.messages, Step(b, e).messages)
  {
    var d := AppendToolCall(b, e.callId, e.content, e.info);
    if d != b {
      PushKeepsInv(b, d.messages[|b.messages|], d.nextUuid);
    }
  }

  lemma PlanKeepsInv(b: Builder, e: Notification)
    requires Inv(b) && e.PlanUpdate?
    ensures Inv(Step(b, e)) && OneChange(b.messages, Step(b, e).messages)
  {
    PushKeepsInv(b, Step(b, e).messages[|b.messages|], b.nextUuid + 1);
  }

  // One notification appends one message, rewrites one in place, or does nothing.
  lemma StepKeepsInv(b: Builder, e: Notification)
    requires Inv(b)
    ensures Inv(Step(b, e)) && OneChange(b.messages, Step(b, e).messages)
  {
    hide Inv, OneChange;
    match e
    case NoKind => KindKeepsInv(b, b);
    case UserMessage(text) =>
      TextKeepsInv(b, User, text);
      KindKeepsInv(Apply(b, e), Step(b, e));
    case AgentMessage(text) =>
      TextKeepsInv(b, Assistant, text);
      KindKeepsInv(Apply(b, e), Step(b, e));
    case AgentChunk(text) => StreamingKeepsInv(b, Assistant, text);
    case ThoughtChunk(text) => StreamingKeepsInv(b, Thought, text);
    case ToolCall(_, _, _) => ToolCallKeepsInv(b, e);
    case ToolCallUpdate(_, _, _, _, _, _, _, _) =>
      ToolUpdateKeepsInv(b, e);
      KindKeepsInv(Apply(b, e), Step(b, e));
    case PlanUpdate(_) => PlanKeepsInv(b, e);
    case OtherKind(_) => KindKeepsInv(b, Step(b, e));
  }

  lemma KindKeepsInv(b: Builder, d: Builder)
    requires Inv(b) && d == b.(lastKind := d.lastKind)
    ensures Inv(d) && OneChange(b.messages, b.messages)
  {
  }

  // Entries never move or change identity: what a prefix of the history produced stays in place.
  ghost predicate Keeps(a: seq<ChatMessage>, b: seq<ChatMessage>) {
    && |a| <= |b|
    && forall i :: 0 <= i < |a| ==> SameEntry(a[i], b[i]) && (a[i].role == User ==> a[i] == b[i])
  }

  // Over every history: at most one message per tool call, no repeated user message, stable entries.
  lemma {:induction false} FoldKeepsInv(b: Builder, history: seq<Notification>)
    requires Inv(b)
    ensures Inv(Fold(b, history)) && Keeps(b.messages, Fold(b, history).messages)
    decreases |history|
  {
    if history != [] {
      StepKeepsInv(b, history[0]);
      var d := Step(b, history[0]);
      assert Keeps(b.messages, d.messages);
      FoldKeepsInv(d, history[1..]);
    }
  }

  lemma TranscriptInvariant(history: seq<Notification>)
    ensures var messages := Fold(Start, history).messages;
            OneMessagePerCall(messages) && NoRepeatedUser(messages)
  {
    FoldKeepsInv(Start, history);
  }

  // ---- Streaming runs ----

  function Chunk(role: Role, text: string): Notification
    requires role in {Assistant, Thought}
  {
    if role == Assistant then AgentChunk(text) else ThoughtChunk(text)
  }

  function StreamOf(b: Builder, role: Role): Option<nat> {
    if role == Assistant then b.agentStream else b.thoughtStream
  }

  function ChunkKind(role: Role): Kind {
    if role == Assistant then AgentChunkKind else ThoughtChunkKind
  }

  function Chunks(role: Role, texts: seq<string>): seq<Notification>
    requires role in {Assistant, Thought}
  {
    seq(|texts|, i requires 0 <= i < |texts| => Chunk(role, texts[i]))
  }

  // The newest message is the one the role is streaming into.
  ghost predicate OpenAtEnd(b: Builder, role: Role) {
    && StreamOf(b, role).Some? && b.messages != []
    && b.messages[|b.messages| - 1].id == Uuid(StreamOf(b, role).value)
    && b.messages[|b.messages| - 1].role == role
  }

  function ExtendLast(messages: seq<ChatMessage>, text: string): seq<ChatMessage>
    requires messages != []
  {
    var n := |messages| - 1;
    messages[n := messages[n].(content := messages[n].content + text)]
  }

  lemma ExtendTwice(messages: seq<ChatMessage>, first: string, second: string)
    requires messages != []
    ensures ExtendLast(ExtendLast(messages, first), second) == ExtendLast(messages, first + second)
  {
    var content := messages[|messages| - 1].content;
    assert (content + first) + second == content + (first + second);
  }

  // The thought stream after a non-empty chunk: agent text closes it.
  function ThoughtAfter(b: Builder, role: Role): Option<nat> {
    if role == Assistant then None else b.thoughtStream
  }

  lemma ChunkExtends(b: Builder, role: Role, text: string)
    requires Inv(b) && role in {Assistant, Thought} && text != ""
    requires b.lastKind == Some(ChunkKind(role)) && OpenAtEnd(b, role)
    ensures Step(b, Chunk(role, text))
         == b.(messages := ExtendLast(b.messages, text), thoughtStream := ThoughtAfter(b, role))
    ensures OpenAtEnd(Step(b, Chunk(role, text)), role)
  {
    ChunkChanges(b, StreamOf(b, role), true, role, text);
    var i :| 0 <= i < |b.messages| && b.messages[i].id == Uuid(StreamOf(b, role).value) && b.messages[i].role == role
             && Step(b, Chunk(role, text)).messages == b.messages[i := b.messages[i].(content := b.messages[i].content + text)];
    assert i == |b.messages| - 1;
  }

  lemma ChunkOpens(b: Builder, role: Role, text: string)
    requires Inv(b) && role in {Assistant, Thought} && text != ""
    requires b.lastKind != Some(ChunkKind(role))
    ensures var d := Step(b, Chunk(role, text));
            && d.messages == b.messages + [ChatMessage(Uuid(b.nextUuid), role, StripLeadingNewlines(text), None, None)]
            && d.nextUuid == b.nextUuid + 1
            && OpenAtEnd(d, role) && d.lastKind == Some(ChunkKind(role)) && StreamOf(d, role) == Some(b.nextUuid)
  {
    ChunkChanges(b, StreamOf(b, role), false, role, text);
  }

  lemma {:induction false} RunExtends(b: Builder, role: Role, texts: seq<string>)
    requires Inv(b) && role in {Assistant, Thought} && "" !in texts
    requires b.lastKind == Some(ChunkKind(role)) && OpenAtEnd(b, role)
    ensures Fold(b, Chunks(role, texts))
         == if texts == [] then b
            else b.(messages := ExtendLast(b.messages, Concat(texts)), thoughtStream := ThoughtAfter(b, role))
    decreases |texts|
  {
    if texts != [] {
      assert texts[0] in texts;
      ChunkExtends(b, role, texts[0]);
      var d := Step(b, Chunk(role, texts[0]));
      StepKeepsInv(b, Chunk(role, texts[0]));
      assert Chunks(role, texts)[1..] == Chunks(role, texts[1..]);
      RunExtends(d, role, texts[1..]);
      ExtendTwice(b.messages, texts[0], Concat(texts[1..]));
      assert texts[1..] == [] ==> Concat(texts) == texts[0];
    }
  }

  // A maximal run of non-empty chunks becomes one message at the end: the first text without its
  // leading newlines, then the others unchanged.
  lemma RunBecomesOneMessage(b: Builder, role: Role, texts: seq<string>)
    requires Inv(b) && role in {Assistant, Thought} && texts != [] && "" !in texts
    requires b.lastKind != Some(ChunkKind(role))
    ensures var d := Fold(b, Chunks(role, texts));
            && d.messages == b.messages + [ChatMessage(Uuid(b.nextUuid), role,
                                            StripLeadingNewlines(texts[0]) + Concat(texts[1..]), None, None)]
            && d.nextUuid == b.nextUuid + 1 && d.lastKind == Some(ChunkKind(role))
            && StreamOf(d, role) == Some(b.nextUuid)
            && d.agentStream == (if role == Assistant then Some(b.nextUuid) else b.agentStream)
            && d.thoughtStream == (if role == Assistant then None else Some(b.nextUuid))
  {
    assert texts[0] in texts;
    ChunkOpens(b, role, texts[0]);
    StepKeepsInv(b, Chunk(role, texts[0]));
    assert Chunks(role, texts)[1..] == Chunks(role, texts[1..]);
    RunExtends(Step(b, Chunk(role, texts[0])), role, texts[1..]);
    assert texts[1..] == [] ==> StripLeadingNewlines(texts[0]) + Concat(texts[1..]) == StripLeadingNewlines(texts[0]);
  }

  predicate AllNewlines(text: string) {
    forall c :: c in text ==> c in "\r\n"
  }

  predicate StartsWithNewline(text: string) {
    text != "" && text[0] in "\r\n"
  }

  // Stripping the first piece is stripping the whole, unless that piece is all newlines and more follow.
  lemma {:induction false} StripFirstPiece(first: string, rest: string)
    ensures StripLeadingNewlines(first) + rest == StripLeadingNewlines(first + rest)
       <==> !(AllNewlines(first) && StartsWithNewline(rest))
  {
    if first == "" {
      assert first + rest == rest;
      StripShortens(rest);
    } else if first[0] in "\r\n" {
      assert (first + rest)[1..] == first[1..] + rest;
      assert first == [first[0]] + first[1..];
      StripFirstPiece(first[1..], rest);
    } else {
      assert first[0] in first;
    }
  }

  lemma {:induction false} StripShortens(text: string)
    ensures |StripLeadingNewlines(text)| <= |text|
    ensures StripLeadingNewlines(text) == text <==> !StartsWithNewline(text)
  {
    if StartsWithNewline(text) {
      StripShortens(text[1..]);
    }
  }

  // Delivering a text in pieces gives the state of delivering it whole, so the same transcript
  // whatever follows, exactly when the first piece does not leave newlines to its successors.
  lemma PiecesIffWhole(b: Builder, role: Role, texts: seq<string>)
    requires Inv(b) && role in {Assistant, Thought} && b.lastKind != Some(ChunkKind(role))
    requires texts != [] && "" !in texts
    ensures Fold(b, Chunks(role, texts)) == Fold(b, Chunks(role, [Concat(texts)]))
       <==> !(AllNewlines(texts[0]) && StartsWithNewline(Concat(texts[1..])))
  {
    assert texts[0] in texts;
    var whole := [Concat(texts)];
    assert Concat(texts) != "";
    RunBecomesOneMessage(b, role, texts);
    RunBecomesOneMessage(b, role, whole);
    assert whole[1..] == [];
    assert StripLeadingNewlines(whole[0]) + "" == StripLeadingNewlines(whole[0]);
    StripFirstPiece(texts[0], Concat(texts[1..]));
    var d, w := Fold(b, Chunks(role, texts)), Fold(b, Chunks(role, whole));
    assert d.messages[|b.messages|].content == StripLeadingNewlines(texts[0]) + Concat(texts[1..]);
    assert w.messages[|b.messages|].content == StripLeadingNewlines(texts[0] + Concat(texts[1..]));
    assert d.messages == w.messages <==>
           d.messages[|b.messages|].content == w.messages[|b.messages|].content;
  }

  // A text whose first piece is a newline and whose second starts with one keeps the second newline.
  lemma PiecesExample()
    ensures Fold(Start, [AgentChunk("\n"), AgentChunk("\nb")]).messages == [ChatMessage(Uuid(0), Assistant, "\nb", None, None)]
    ensures Fold(Start, [AgentChunk("\n\nb")]).messages == [ChatMessage(Uuid(0), Assistant, "b", None, None)]
  {
    var b1 := Step(Start, AgentChunk("\n"));
    var b2 := Step(b1, AgentChunk("\nb"));
    assert "\n"[1..] == "" && "\n\nb"[1..] == "\nb" && "\nb"[1..] == "b";
    assert StripLeadingNewlines("\nb") == "b";
    assert b1.messages == [ChatMessage(Uuid(0), Assistant, "", None, None)];
    assert FindId(b1.messages, Uuid(0)) == 0;
    assert "" + "\nb" == "\nb";
    assert Fold(b1, [AgentChunk("\nb")]) == b2;
  }

  // ---- Which message a chunk touches ----

  // A chunk with text appends a message or extends the newest one.
  ghost predicate TouchesLast(b: Builder, role: Role, text: string)
    requires role in {Assistant, Thought}
  {
    var messages := Step(b, Chunk(role, text)).messages;
    || (exists m :: messages == b.messages + [m])
    || (b.messages != [] && messages == ExtendLast(b.messages, text))
  }

  ghost predicate AllTouchLast(b: Builder, history: seq<Notification>)
    decreases |history|
  {
    history != [] ==>
      && (history[0].AgentChunk? && history[0].text != "" ==> TouchesLast(b, Assistant, history[0].text))
      && (history[0].ThoughtChunk? && history[0].text != "" ==> TouchesLast(b, Thought, history[0].text))
      && AllTouchLast(Step(b, history[0]), history[1..])
  }

  // No run of chunks of one kind opens with an empty text.
  predicate RunsOpenWithText(lastKind: Option<Kind>, history: seq<Notification>)
    decreases |history|
  {
    history != [] ==>
      && (history[0].AgentChunk? && history[0].text == "" ==> lastKind == Some(AgentChunkKind))
      && (history[0].ThoughtChunk? && history[0].text == "" ==> lastKind == Some(ThoughtChunkKind))
      && RunsOpenWithText(if history[0].NoKind? then lastKind else Some(KindOf(history[0])), history[1..])
  }

  ghost predicate StreamingAtEnd(b: Builder) {
    && (b.lastKind == Some(AgentChunkKind) ==> OpenAtEnd(b, Assistant))
    && (b.lastKind == Some(ThoughtChunkKind) ==> OpenAtEnd(b, Thought))
  }

  lemma ChunkTouchesLast(b: Builder, role: Role, text: string)
    requires Inv(b) && StreamingAtEnd(b) && role in {Assistant, Thought} && text != ""
    ensures TouchesLast(b, role, text) && StreamingAtEnd(Step(b, Chunk(role, text)))
  {
    if b.lastKind == Some(ChunkKind(role)) {
      ChunkExtends(b, role, text);
    } else {
      ChunkOpens(b, role, text);
    }
  }

  // Streaming never reaches back past the newest message when every run opens with text.
  lemma {:induction false} OpenRunsTouchLast(b: Builder, history: seq<Notification>)
    requires Inv(b) && StreamingAtEnd(b) && RunsOpenWithText(b.lastKind, history)
    ensures AllTouchLast(b, history)
    decreases |history|
  {
    if history != [] {
      var e := history[0];
      if e.AgentChunk? && e.text != "" {
        ChunkTouchesLast(b, Assistant, e.text);
      }
      if e.ThoughtChunk? && e.text != "" {
        ChunkTouchesLast(b, Thought, e.text);
      }
      StepKeepsInv(b, e);
      OpenRunsTouchLast(Step(b, e), history[1..]);
    }
  }

  lemma NotExtended(messages: seq<ChatMessage>, i: nat, text: string)
    requires i < |messages| - 1 && text != ""
    ensures var changed := messages[i := messages[i].(content := messages[i].content + text)];
            changed != ExtendLast(messages, text) && forall m :: changed != messages + [m]
  {
    var changed := messages[i := messages[i].(content := messages[i].content + text)];
    assert |changed[i].content| > |messages[i].content|;
    assert ExtendLast(messages, text)[i] == messages[i];
    assert |changed| == |messages|;
  }

  // A continued stream is extended where its message stands.
  lemma ContinuesAt(c: Builder, role: Role, text: string) returns (k: nat)
    requires Inv(c) && role in {Assistant, Thought} && text != "" && StreamOf(c, role).Some?
    requires c.lastKind == Some(ChunkKind(role))
    ensures k < |c.messages| && c.messages[k].id == Uuid(StreamOf(c, role).value)
    ensures Step(c, Chunk(role, text)).messages
         == c.messages[k := c.messages[k].(content := c.messages[k].content + text)]
  {
    ChunkChanges(c, StreamOf(c, role), true, role, text);
    k :| 0 <= k < |c.messages| && c.messages[k].id == Uuid(StreamOf(c, role).value) && c.messages[k].role == role
         && Step(c, Chunk(role, text)).messages == c.messages[k := c.messages[k].(content := c.messages[k].content + text)];
  }

  // A chunk of the kind seen last continues a stream that is no longer the newest message.
  ghost predicate Behind(b: Builder, role: Role) {
    && b.lastKind == Some(ChunkKind(role)) && StreamOf(b, role).Some?
    && b.messages != [] && b.messages[|b.messages| - 1].id != Uuid(StreamOf(b, role).value)
  }

  // In every reachable state a chunk touches the newest message exactly when it is not behind it.
  lemma TouchesLastIff(b: Builder, role: Role, text: string)
    requires Inv(b) && role in {Assistant, Thought} && text != ""
    ensures TouchesLast(b, role, text) <==> !Behind(b, role)
  {
    if b.lastKind != Some(ChunkKind(role)) {
      ChunkOpens(b, role, text);
    } else if StreamOf(b, role).None? {
      ChunkChanges(b, StreamOf(b, role), true, role, text);
    } else {
      var k := ContinuesAt(b, role, text);
      if k < |b.messages| - 1 {
        NotExtended(b.messages, k, text);
        NewestDiffers(b, k);
      }
    }
  }

  lemma NewestDiffers(b: Builder, k: nat)
    requires Inv(b) && k < |b.messages| - 1 && b.messages[k].id.Uuid?
    ensures b.messages[|b.messages| - 1].id != b.messages[k].id
  {
  }

  ghost predicate NeverBehind(b: Builder, history: seq<Notification>)
    decreases |history|
  {
    history != [] ==>
      && (history[0].AgentChunk? && history[0].text != "" ==> !Behind(b, Assistant))
      && (history[0].ThoughtChunk? && history[0].text != "" ==> !Behind(b, Thought))
      && NeverBehind(Step(b, history[0]), history[1..])
  }

  // Over a history streaming only touches newest messages if and only if no chunk falls behind.
  lemma {:induction false} AllTouchLastIff(b: Builder, history: seq<Notification>)
    requires Inv(b)
    ensures AllTouchLast(b, history) <==> NeverBehind(b, history)
    decreases |history|
  {
    if history != [] {
      var e := history[0];
      if e.AgentChunk? && e.text != "" {
        TouchesLastIff(b, Assistant, e.text);
      }
      if e.ThoughtChunk? && e.text != "" {
        TouchesLastIff(b, Thought, e.text);
      }
      StepKeepsInv(b, e);
      AllTouchLastIff(Step(b, e), history[1..]);
    }
  }

  // After an empty chunk the next chunk of its kind goes to the known stream of that kind, so it
  // touches the newest message exactly when there is no such stream or it is the newest message.
  lemma AfterEmptyChunk(b: Builder, role: Role, text: string)
    requires Inv(b) && role in {Assistant, Thought} && text != ""
    ensures StreamOf(b, role).Some? ==> b.messages != []
    ensures TouchesLast(Step(b, Chunk(role, "")), role, text)
       <==> StreamOf(b, role).None? || b.messages[|b.messages| - 1].id == Uuid(StreamOf(b, role).value)
  {
    var c := Step(b, Chunk(role, ""));
    assert c == b.(lastKind := Some(ChunkKind(role)));
    StepKeepsInv(b, Chunk(role, ""));
    TouchesLastIff(c, role, text);
  }

  // The smallest such history: the text after the plan lands in the message before it.
  lemma EmptyChunkExample()
    ensures var messages := Fold(Start, [AgentChunk("a"), PlanUpdate("p"), AgentChunk(""), AgentChunk("b")]).messages;
            |messages| == 2 && messages[0].content == "ab" && messages[1].role == Plan
  {
    var b1 := Step(Start, AgentChunk("a"));
    var b2 := Step(b1, PlanUpdate("p"));
    var b3 := Step(b2, AgentChunk(""));
    var b4 := Step(b3, AgentChunk("b"));
    assert b1.messages == [ChatMessage(Uuid(0), Assistant, "a", None, None)];
    assert FindId(b3.messages, Uuid(0)) == 0;
    assert "a" + "b" == "ab";
    assert Fold(b3, [AgentChunk("b")]) == b4;
    assert Fold(b2, [AgentChunk(""), AgentChunk("b")]) == Fold(b3, [AgentChunk("b")]);
    assert Fold(b1, [PlanUpdate("p"), AgentChunk(""), AgentChunk("b")]) == Fold(b2, [AgentChunk(""), AgentChunk("b")]);
  }

  // ---- White space ----

  // The words of a text: its longest runs of characters that are not white space.
  function Words(s: string): (w: seq<string>)
    ensures s != "" && !IsSpace(s[0]) ==> w != []
    ensures forall i :: 0 <= i < |w| ==> IsWord(w[i])
  {
    if s == "" then []
    else if IsSpace(s[0]) then Words(s[1..])
    else if |s| > 1 && !IsSpace(s[1]) then [[s[0]] + Words(s[1..])[0]] + Words(s[1..])[1..]
    else [[s[0]]] + Words(s[1..])
  }

  predicate IsWord(w: string) {
    w != "" && forall c :: c in w ==> !IsSpace(c)
  }

  function Blank(b: bool): string {
    if b then " " else ""
  }

  lemma {:induction false} NoWords(s: string)
    ensures Words(s) == [] <==> forall c :: c in s ==> IsSpace(c)
  {
    if s != "" {
      NoWords(s[1..]);
      assert s == [s[0]] + s[1..];
    }
  }

  lemma BlankIsSpace()
    ensures IsSpace(' ')
  {
  }

  // A collapsed text: a blank if white space comes first, the words, and a blank if white space comes last.
  function Spaced(first: bool, words: seq<string>, last: bool): string {
    Blank(first) + (Join(words, " ") + Blank(last))
  }

  // Collapsing leaves the words with one blank between them, and one at an end that had white space.
  lemma {:induction false} CollapseWords(s: string)
    ensures Collapse(s) == Spaced(s != "" && IsSpace(s[0]), Words(s), Words(s) != [] && IsSpace(s[|s| - 1]))
  {
    hide IsSpace, Spaced;
    if s == "" {
      NothingSpaced();
    } else {
      var t := s[1..];
      CollapseWords(t);
      NoWords(t);
      if t != "" {
        assert t[0] == s[1] && t[|t| - 1] == s[|s| - 1] && s[|s| - 1] in t;
      }
      if !IsSpace(s[0]) {
        if t == "" {
          OneWord(s[0]);
          assert Words(s) == [[s[0]]];
        } else if !IsSpace(t[0]) {
          LongerWord(s[0], Words(t), IsSpace(s[|s| - 1]));
        } else {
          NextWord(s[0], Words(t), IsSpace(s[|s| - 1]));
        }
      } else if t == "" {
        assert Words(s) == [];
        BlankFirst([], false);
        NothingSpaced();
      } else if !IsSpace(t[0]) {
        BlankFirst(Words(t), IsSpace(s[|s| - 1]));
      }
    }
  }

  lemma NothingSpaced()
    ensures Spaced(false, [], false) == ""
  {
  }

  lemma BlankFirst(w: seq<string>, last: bool)
    ensures " " + Spaced(false, w, last) == Spaced(true, w, last)
  {
    assert "" + (Join(w, " ") + Blank(last)) == Join(w, " ") + Blank(last);
  }

  lemma OneWord(c: char)
    ensures [c] + "" == Spaced(false, [[c]], false)
  {
  }

  lemma LongerWord(c: char, w: seq<string>, last: bool)
    requires w != []
    ensures [c] + Spaced(false, w, last) == Spaced(false, [[c] + w[0]] + w[1..], last)
  {
    JoinHead([c], w);
  }

  lemma NextWord(c: char, w: seq<string>, last: bool)
    ensures [c] + Spaced(true, w, w != [] && last) == Spaced(false, [[c]] + w, w == [] || last)
  {
    assert ([[c]] + w)[1..] == w;
  }

  lemma JoinHead(a: string, w: seq<string>)
    requires w != []
    ensures Join([a + w[0]] + w[1..], " ") == a + Join(w, " ")
  {
    assert ([a + w[0]] + w[1..])[1..] == w[1..];
  }

  lemma {:induction false} JoinEnds(w: seq<string>)
    requires forall i :: 0 <= i < |w| ==> IsWord(w[i])
    ensures w != [] ==> var j := Join(w, " "); j != "" && !IsSpace(j[0]) && !IsSpace(j[|j| - 1])
    ensures w == [] ==> Join(w, " ") == ""
  {
    if w != [] {
      assert w[0][0] in w[0] && w[0][|w[0]| - 1] in w[0];
      JoinEnds(w[1..]);
    }
  }

  lemma Trimmed(first: bool, j: string, last: bool)
    requires j != "" ==> !IsSpace(j[0]) && !IsSpace(j[|j| - 1])
    requires j == "" ==> !last
    ensures TrimEnd(TrimStart(Blank(first) + (j + Blank(last)))) == j
  {
    hide IsSpace;
    BlankIsSpace();
    var t := Blank(first) + (j + Blank(last));
    if first {
      assert t[1..] == j + Blank(last);
    } else {
      assert t == j + Blank(last);
    }
    assert TrimStart(t) == j + Blank(last);
    if last {
      assert (j + " ")[..|j|] == j;
    } else {
      assert j + "" == j;
    }
  }

  // Normalised, a text is its words with single blanks between them.
  lemma NormalizedWords(s: string)
    ensures NormalizeText(s) == Join(Words(s), " ")
  {
    hide IsSpace, Collapse, TrimStart, TrimEnd;
    CollapseWords(s);
    JoinEnds(Words(s));
    Trimmed(s != "" && IsSpace(s[0]), Join(Words(s), " "), Words(s) != [] && IsSpace(s[|s| - 1]));
  }

  lemma {:induction false} WordsAppend(w: string, rest: string)
    requires IsWord(w) && (rest == "" || IsSpace(rest[0]))
    ensures Words(w + rest) == [w] + Words(rest)
    decreases |w|
  {
    var s := w + rest;
    assert s[0] in w;
    if |w| == 1 {
      assert s[1..] == rest && w == [w[0]] && (rest != "" ==> s[1] == rest[0]);
    } else {
      assert s[1..] == w[1..] + rest && s[1] in w;
      assert forall c :: c in w[1..] ==> c in w;
      WordsAppend(w[1..], rest);
      assert w == [w[0]] + w[1..];
    }
  }

  lemma {:induction false} WordsOfJoin(w: seq<string>)
    requires forall i :: 0 <= i < |w| ==> IsWord(w[i])
    ensures Words(Join(w, " ")) == w
  {
    if w != [] {
      WordsOfJoin(w[1..]);
      if |w| == 1 {
        WordsAppend(w[0], "");
        assert w[0] + "" == w[0];
      } else {
        var tail := Join(w[1..], " ");
        WordsAppend(w[0], " " + tail);
        assert IsSpace(' ') && (" " + tail)[1..] == tail;
        assert w[0] + " " + tail == w[0] + (" " + tail);
      }
    }
  }

  // Texts are the same up to white space when they have the same words.
  lemma SameUpToSpace(s: string, t: string)
    ensures NormalizeText(s) == NormalizeText(t) <==> Words(s) == Words(t)
  {
    NormalizedWords(s);
    NormalizedWords(t);
    WordsOfJoin(Words(s));
    WordsOfJoin(Words(t));
  }

  function WithoutSpace(s: string): string {
    if s == "" then "" else if IsSpace(s[0]) then WithoutSpace(s[1..]) else [s[0]] + WithoutSpace(s[1..])
  }

  // The words hold every character that is not white space.
  lemma {:induction false} WordsHoldAll(s: string)
    ensures Concat(Words(s)) == WithoutSpace(s)
  {
    hide IsSpace;
    if s != "" {
      WordsHoldAll(s[1..]);
      var w := Words(s[1..]);
      if !IsSpace(s[0]) {
        if |s| > 1 && !IsSpace(s[1]) {
          assert Words(s)[1..] == w[1..];
          Associative([s[0]], w[0], Concat(w[1..]));
        } else {
          assert ([[s[0]]] + w)[1..] == w;
        }
      }
    }
  }

  // What is stripped are carriage returns and newlines, all there are at the start.
  lemma {:induction false} StripMeaning(text: string) returns (k: nat)
    ensures k <= |text| && StripLeadingNewlines(text) == text[k..] && AllNewlines(text[..k])
    ensures !StartsWithNewline(StripLeadingNewlines(text))
  {
    hide AllNewlines;
    if StartsWithNewline(text) {
      var rest := text[1..];
      var j := StripMeaning(rest);
      k := j + 1;
      assert rest[j..] == text[k..];
      assert text[..k] == [text[0]] + rest[..j];
      MoreNewlines(text[0], rest[..j]);
    } else {
      k := 0;
      assert text[0..] == text && text[..0] == "";
      NoNewlines();
    }
  }

  lemma NoNewlines()
    ensures AllNewlines("")
  {
  }

  lemma MoreNewlines(c: char, text: string)
    requires c in "\r\n" && AllNewlines(text)
    ensures AllNewlines([c] + text)
  {
  }

  // ---- What each notification shows ----

  // The newest entry has the role and the same words.
  ghost predicate Repeats(messages: seq<ChatMessage>, role: Role, text: string) {
    messages != [] && messages[|messages| - 1].role == role && Words(messages[|messages| - 1].content) == Words(text)
  }

  // A text is appended unless it is empty or repeats the newest entry.
  ghost predicate ShowsText(a: seq<ChatMessage>, role: Role, text: string, b: seq<ChatMessage>) {
    if text == "" || Repeats(a, role, text) then b == a
    else b == a + [ChatMessage(Indexed(role, |a|), role, text, None, None)]
  }

  // A chunk opens a message, without leading newlines, or extends one that was opened by a chunk.
  ghost predicate ShowsChunk(a: seq<ChatMessage>, role: Role, text: string, b: seq<ChatMessage>) {
    if text == "" then b == a
    else
      || (exists n: nat :: b == a + [ChatMessage(Uuid(n), role, StripLeadingNewlines(text), None, None)])
      || (exists i :: 0 <= i < |a| && a[i].id.Uuid? && a[i].role == role
                      && b == a[i := a[i].(content := a[i].content + text)])
  }

  ghost predicate HasCall(messages: seq<ChatMessage>, callId: Option<string>) {
    callId.Some? && callId.value != "" && exists i :: 0 <= i < |messages| && messages[i].toolCallId == callId
  }

  ghost predicate ShowsCall(a: seq<ChatMessage>, e: Notification, b: seq<ChatMessage>)
    requires e.ToolCall?
  {
    if HasCall(a, e.callId) then b == a
    else |b| == |a| + 1 && b[..|a|] == a && var m := b[|a|];
      m.role == Tool && m.content == e.content && m.toolCallId == e.callId && m.tool == Some(e.info)
      && (e.callId.Some? ==> m.id == CallId(e.callId.value)) && (e.callId.None? ==> m.id.Uuid?)
  }

  // The input that is shown after an update: permission requests collect their fields.
  function InputAfter(kind: Option<string>, known: Option<map<string, Json>>, given: Option<map<string, Json>>)
    : Option<map<string, Json>>
  {
    if kind == Some("request-permissions") && known.Some? && given.Some? then Some(known.value + given.value)
    else if given.Some? then given
    else known
  }

  ghost predicate ShowsUpdate(a: seq<ChatMessage>, e: Notification, b: seq<ChatMessage>)
    requires e.ToolCallUpdate?
  {
    if e.callId.None? || e.callId.value == "" then b == a
    else if HasCall(a, e.callId) then
      exists i, m :: 0 <= i < |a| && a[i].toolCallId == e.callId && a[i].role == Tool && b == a[i := m]
        && m == a[i].(content := m.content, tool := m.tool) && m.tool.Some?
        && m.content == (if e.outputParts != [] then e.name + "\n\nOutput:\n" + Join(e.outputParts, "\n") else a[i].content)
        && m.tool.value.name == e.name
        && (a[i].tool.Some? ==>
              var known, shown := a[i].tool.value, m.tool.value;
              && shown.status == (if e.status.Some? then e.status.value else known.status)
              && shown.kind == (if e.kind.Some? then e.kind else known.kind)
              && shown.rawInput == InputAfter(shown.kind, known.rawInput, e.rawInput)
              && shown.rawOutput == (if e.rawOutput.Some? then e.rawOutput else known.rawOutput)
              && shown.delegatedTaskId == (if e.delegatedTaskId.Some? then e.delegatedTaskId else known.delegatedTaskId))
    else |b| == |a| + 1 && b[..|a|] == a && var m := b[|a|];
      && m.id.Uuid? && m.role == Tool && m.toolCallId == e.callId
      && m.content == (if Join(e.outputParts, "\n") != "" then Join(e.outputParts, "\n")
                       else "Tool " + if e.status.Some? then e.status.value else "update")
      && m.tool == Some(ToolInfo(e.name, if e.status.Some? then e.status.value else "completed",
                                 e.kind, e.rawInput, e.rawOutput, e.delegatedTaskId))
  }

  // How a notification changes what is shown, from a to b.
  ghost predicate Shows(a: seq<ChatMessage>, e: Notification, b: seq<ChatMessage>) {
    match e
    case UserMessage(text) => ShowsText(a, User, text, b)
    case AgentMessage(text) => ShowsText(a, Assistant, text, b)
    case AgentChunk(text) => ShowsChunk(a, Assistant, text, b)
    case ThoughtChunk(text) => ShowsChunk(a, Thought, text, b)
    case ToolCall(_, _, _) => ShowsCall(a, e, b)
    case ToolCallUpdate(_, _, _, _, _, _, _, _) => ShowsUpdate(a, e, b)
    case PlanUpdate(text) => exists n: nat :: b == a + [ChatMessage(Uuid(n), Plan, text, None, None)]
    case NoKind => b == a
    case OtherKind(_) => b == a
  }

  lemma TextShows(b: Builder, role: Role, text: string)
    ensures ShowsText(b.messages, role, text, AppendText(b.messages, role, text))
  {
    hide NormalizeText, Words;
    if b.messages != [] {
      SameUpToSpace(b.messages[|b.messages| - 1].content, text);
    }
  }

  lemma ChunkShows(b: Builder, role: Role, text: string)
    requires Inv(b) && role in {Assistant, Thought}
    ensures ShowsChunk(b.messages, role, text, Step(b, Chunk(role, text)).messages)
  {
    if text != "" {
      ChunkChanges(b, StreamOf(b, role), b.lastKind == Some(ChunkKind(role)), role, text);
    }
  }

  lemma CallShows(b: Builder, e: Notification)
    requires e.ToolCall?
    ensures ShowsCall(b.messages, e, Step(b, e).messages)
  {
    hide Inv;
    if e.callId.Some? {
      var i := FindCall(b.messages, e.callId.value);
      assert i < |b.messages| ==> b.messages[i].toolCallId == e.callId;
    }
  }

  lemma RewriteShows(b: Builder, e: Notification, i: nat)
    requires e.ToolCallUpdate? && OneMessagePerCall(b.messages) && e.callId.Some? && e.callId.value != ""
    requires i == FindCall(b.messages, e.callId.value) && i < |b.messages|
    ensures ShowsUpdate(b.messages, e, Step(b, e).messages)
  {
    hide Join;
    var a, d := b.messages, Step(b, e).messages;
    assert d == a[i := d[i]] && HasCall(a, e.callId);
    assert a[i].tool.Some? && a[i].tool.value.rawInput.Some? ==>
      a[i].tool.value.rawInput.value + map[] == a[i].tool.value.rawInput.value;
  }

  lemma UpdateShows(b: Builder, e: Notification)
    requires e.ToolCallUpdate? && OneMessagePerCall(b.messages)
    ensures ShowsUpdate(b.messages, e, Step(b, e).messages)
  {
    hide Join;
    if e.callId.Some? && e.callId.value != "" {
      var i := FindCall(b.messages, e.callId.value);
      if i < |b.messages| {
        RewriteShows(b, e, i);
      }
    }
  }

  lemma StepShows(b: Builder, e: Notification)
    requires Inv(b)
    ensures Shows(b.messages, e, Step(b, e).messages)
  {
    hide ShowsText, ShowsChunk, ShowsCall, ShowsUpdate, IdsOk, NoRepeatedUser, OneMessagePerCall;
    match e
    case UserMessage(text) => TextShows(b, User, text);
    case AgentMessage(text) => TextShows(b, Assistant, text);
    case AgentChunk(text) => ChunkShows(b, Assistant, text);
    case ThoughtChunk(text) => ChunkShows(b, Thought, text);
    case ToolCall(_, _, _) => CallShows(b, e);
    case ToolCallUpdate(_, _, _, _, _, _, _, _) => UpdateShows(b, e);
    case _ =>
  }

  // The transcripts after each notification of a history, the empty one first.
  ghost predicate Replay(history: seq<Notification>, states: seq<seq<ChatMessage>>) {
    && |states| == |history| + 1 && states[0] == []
    && forall k :: 0 <= k < |history| ==> Shows(states[k], history[k], states[k + 1])
  }

  lemma ReplayNext(history: seq<Notification>, states: seq<seq<ChatMessage>>, e: Notification, b: seq<ChatMessage>)
    requires Replay(history, states) && Shows(states[|history|], e, b)
    ensures Replay(history + [e], states + [b])
  {
    hide Shows;
    var h, s := history + [e], states + [b];
    forall k | 0 <= k < |h| ensures Shows(s[k], h[k], s[k + 1]) {
      if k < |history| {
        assert s[k] == states[k] && h[k] == history[k] && s[k + 1] == states[k + 1];
      }
    }
  }

  lemma {:induction false} ReplayPrefix(history: seq<Notification>, states: seq<seq<ChatMessage>>, n: nat)
    requires Replay(history, states) && n <= |history|
    ensures Replay(history[..n], states[..n + 1])
  {
    hide Shows;
  }

  // ---- The texts of a transcript ----

  // The contents of the messages of a role that no chunk opened.
  ghost function Contents(messages: seq<ChatMessage>, role: Role): seq<string> {
    if messages == [] then []
    else
      var n := |messages| - 1;
      Contents(messages[..n], role)
      + if messages[n].role == role && (role == Plan || messages[n].id.Indexed?) then [messages[n].content] else []
  }

  // The text a notification gives for the role.
  function TextFor(e: Notification, role: Role): string {
    match e
    case UserMessage(text) => if role == User then text else ""
    case AgentMessage(text) => if role == Assistant then text else ""
    case _ => ""
  }

  // The texts given for the role that are not empty and not a repeat of the newest entry of their time.
  ghost function KeptTexts(history: seq<Notification>, states: seq<seq<ChatMessage>>, role: Role): seq<string>
    requires |states| > |history|
    decreases |history|
  {
    if history == [] then []
    else
      var n := |history| - 1;
      var text := TextFor(history[n], role);
      KeptTexts(history[..n], states, role) + if text != "" && !Repeats(states[n], role, text) then [text] else []
  }

  function PlanTexts(history: seq<Notification>): seq<string> {
    if history == [] then []
    else
      var n := |history| - 1;
      PlanTexts(history[..n]) + if history[n].PlanUpdate? then [history[n].text] else []
  }

  lemma ContentsAppend(a: seq<ChatMessage>, m: ChatMessage, role: Role)
    ensures Contents(a + [m], role)
         == Contents(a, role) + if m.role == role && (role == Plan || m.id.Indexed?) then [m.content] else []
  {
    assert (a + [m])[..|a|] == a;
  }

  lemma {:induction false} ContentsRewrite(a: seq<ChatMessage>, i: nat, m: ChatMessage, role: Role)
    requires i < |a| && m.role == a[i].role && m.id == a[i].id && role in {User, Assistant, Plan}
    requires Rewritable(a[i])
    ensures Contents(a[i := m], role) == Contents(a, role)
    decreases |a|
  {
    var n := |a| - 1;
    if i < n {
      assert a[i := m][..n] == a[..n][i := m];
      ContentsRewrite(a[..n], i, m, role);
    } else {
      assert a[i := m][..n] == a[..n];
    }
  }

  // The entry of a stream or of a tool call.
  ghost predicate Rewritable(m: ChatMessage) {
    m.role == Tool || (m.id.Uuid? && m.role != Plan)
  }

  // What is not appended is rewritten in such an entry, or nothing changes.
  lemma ShowsRewrite(a: seq<ChatMessage>, e: Notification, b: seq<ChatMessage>) returns (i: nat)
    requires Shows(a, e, b) && |b| <= |a| && b != a
    ensures (e.AgentChunk? || e.ThoughtChunk? || e.ToolCallUpdate?) && i < |a| && |b| == |a| && b == a[i := b[i]]
    ensures Rewritable(a[i]) && SameEntry(a[i], b[i])
  {
    hide Words, Repeats, Join;
    i :| 0 <= i < |a| && |b| == |a| && b == a[i := b[i]] && Rewritable(a[i]) && SameEntry(a[i], b[i]);
  }

  // What is appended.
  lemma ShowsAppend(a: seq<ChatMessage>, e: Notification, b: seq<ChatMessage>)
    requires Shows(a, e, b) && |b| > |a|
    ensures b == a + [b[|a|]]
    ensures e.UserMessage? ==> e.text != "" && !Repeats(a, User, e.text)
                               && b[|a|] == ChatMessage(Indexed(User, |a|), User, e.text, None, None)
    ensures e.AgentMessage? ==> e.text != "" && !Repeats(a, Assistant, e.text)
                                && b[|a|] == ChatMessage(Indexed(Assistant, |a|), Assistant, e.text, None, None)
    ensures e.PlanUpdate? ==> b[|a|].role == Plan && b[|a|].content == e.text
    ensures !e.UserMessage? && !e.AgentMessage? && !e.PlanUpdate? ==>
      b[|a|].role != Plan && (b[|a|].id.Indexed? ==> b[|a|].role == Tool)
  {
    hide Words, Repeats, Join;
  }

  // Nothing is appended only for these reasons.
  lemma ShowsNothing(a: seq<ChatMessage>, e: Notification)
    requires Shows(a, e, a)
    ensures e.UserMessage? ==> e.text == "" || Repeats(a, User, e.text)
    ensures e.AgentMessage? ==> e.text == "" || Repeats(a, Assistant, e.text)
    ensures !e.PlanUpdate?
  {
    hide Words, Repeats, Join;
  }

  // One notification adds to the texts of a role what it gives for it.
  lemma ContentsStep(a: seq<ChatMessage>, e: Notification, b: seq<ChatMessage>, role: Role)
    requires Shows(a, e, b) && role in {User, Assistant}
    ensures var text := TextFor(e, role);
            Contents(b, role) == Contents(a, role) + if text != "" && !Repeats(a, role, text) then [text] else []
  {
    hide Shows, Repeats, Contents;
    if |b| > |a| {
      ShowsAppend(a, e, b);
      ContentsAppend(a, b[|a|], role);
    } else if b != a {
      var i := ShowsRewrite(a, e, b);
      ContentsRewrite(a, i, b[i], role);
    } else {
      ShowsNothing(a, e);
    }
  }

  lemma PlanStep(a: seq<ChatMessage>, e: Notification, b: seq<ChatMessage>)
    requires Shows(a, e, b)
    ensures Contents(b, Plan) == Contents(a, Plan) + if e.PlanUpdate? then [e.text] else []
  {
    hide Shows, Repeats, Contents;
    if |b| > |a| {
      ShowsAppend(a, e, b);
      ContentsAppend(a, b[|a|], Plan);
    } else if b != a {
      var i := ShowsRewrite(a, e, b);
      ContentsRewrite(a, i, b[i], Plan);
    } else {
      ShowsNothing(a, e);
    }
  }

  // The user messages show exactly the user texts that are not empty and no repeats, in order; so do the
  // consolidated agent messages for the agent's.
  lemma {:induction false} TextsAreShown(history: seq<Notification>, states: seq<seq<ChatMessage>>, role: Role)
    requires Replay(history, states) && role in {User, Assistant}
    ensures Contents(states[|history|], role) == KeptTexts(history, states, role)
    decreases |history|
  {
    hide Shows, Repeats;
    if history != [] {
      var n := |history| - 1;
      ReplayPrefix(history, states, n);
      TextsAreShown(history[..n], states[..n + 1], role);
      KeptPrefix(history[..n], states, role, n + 1);
      ContentsStep(states[n], history[n], states[n + 1], role);
    }
  }

  lemma {:induction false} KeptPrefix(history: seq<Notification>, states: seq<seq<ChatMessage>>, role: Role, m: nat)
    requires |history| < m <= |states|
    ensures KeptTexts(history, states[..m], role) == KeptTexts(history, states, role)
    decreases |history|
  {
    hide Repeats;
    if history != [] {
      KeptPrefix(history[..|history| - 1], states, role, m);
    }
  }

  // Every plan is shown, in order.
  lemma {:induction false} PlansAreShown(history: seq<Notification>, states: seq<seq<ChatMessage>>)
    requires Replay(history, states)
    ensures Contents(states[|history|], Plan) == PlanTexts(history)
    decreases |history|
  {
    hide Shows;
    if history != [] {
      var n := |history| - 1;
      ReplayPrefix(history, states, n);
      PlansAreShown(history[..n], states[..n + 1]);
      PlanStep(states[n], history[n], states[n + 1]);
    }
  }

  // ---- The message of a tool call ----

  // The history first speaks of the call at place f.
  ghost predicate FirstAbout(history: seq<Notification>, id: string, f: nat) {
    && id != "" && f < |history| && About(history[f], id)
    && forall k :: 0 <= k < f ==> !About(history[k], id)
  }

  predicate About(e: Notification, id: string) {
    (e.ToolCall? || e.ToolCallUpdate?) && e.callId == Some(id)
  }

  predicate Updates(e: Notification, id: string) {
    e.ToolCallUpdate? && e.callId == Some(id)
  }

  // What the call's first notification gives.
  function FirstInfo(e: Notification): ToolInfo
    requires e.ToolCall? || e.ToolCallUpdate?
  {
    if e.ToolCall? then e.info
    else ToolInfo(e.name, if e.status.Some? then e.status.value else "completed", e.kind, e.rawInput, e.rawOutput,
                  e.delegatedTaskId)
  }

  function FirstContent(e: Notification): string
    requires e.ToolCall? || e.ToolCallUpdate?
  {
    if e.ToolCall? then e.content
    else if Join(e.outputParts, "\n") != "" then Join(e.outputParts, "\n")
    else "Tool " + if e.status.Some? then e.status.value else "update"
  }

  // The last value that the updates of the call give, or the initial one if none gives any.
  function LastGiven<T>(later: seq<Notification>, id: string, get: Notification -> Option<T>, initial: Option<T>): Option<T>
    decreases |later|
  {
    if later == [] then initial
    else
      var e := later[|later| - 1];
      if Updates(e, id) && get(e).Some? then get(e) else LastGiven(later[..|later| - 1], id, get, initial)
  }

  function NameIn(e: Notification): Option<string> {
    if e.ToolCallUpdate? then Some(e.name) else None
  }

  function StatusIn(e: Notification): Option<string> {
    if e.ToolCallUpdate? then e.status else None
  }

  function KindIn(e: Notification): Option<string> {
    if e.ToolCallUpdate? then e.kind else None
  }

  function RawOutputIn(e: Notification): Option<Json> {
    if e.ToolCallUpdate? then e.rawOutput else None
  }

  function TaskIn(e: Notification): Option<string> {
    if e.ToolCallUpdate? then e.delegatedTaskId else None
  }

  function OutputIn(e: Notification): Option<string> {
    if e.ToolCallUpdate? && e.outputParts != []
    then Some(e.name + "\n\nOutput:\n" + Join(e.outputParts, "\n")) else None
  }

  // The input after the updates of the call: the last one given, or all fields given to a permission request.
  function LastInput(later: seq<Notification>, id: string, first: ToolInfo): Option<map<string, Json>>
    decreases |later|
  {
    if later == [] then first.rawInput
    else
      var n := |later| - 1;
      var known := LastInput(later[..n], id, first);
      if Updates(later[n], id) then InputAfter(LastGiven(later, id, KindIn, first.kind), known, later[n].rawInput) else known
  }

  // Message i is the only one of the call and shows what was last given for it.
  ghost predicate ShowsTool(history: seq<Notification>, f: nat, id: string, messages: seq<ChatMessage>, i: nat)
    requires FirstAbout(history, id, f)
  {
    var first, later := FirstInfo(history[f]), history[f + 1..];
    && OnlyCall(messages, id, i) && messages[i].role == Tool && messages[i].tool.Some?
    && Some(messages[i].content) == LastGiven(later, id, OutputIn, Some(FirstContent(history[f])))
    && var info := messages[i].tool.value;
       && Some(info.name) == LastGiven(later, id, NameIn, Some(first.name))
       && Some(info.status) == LastGiven(later, id, StatusIn, Some(first.status))
       && info.kind == LastGiven(later, id, KindIn, first.kind)
       && info.rawInput == LastInput(later, id, first)
       && info.rawOutput == LastGiven(later, id, RawOutputIn, first.rawOutput)
       && info.delegatedTaskId == LastGiven(later, id, TaskIn, first.delegatedTaskId)
  }

  ghost predicate OnlyCall(messages: seq<ChatMessage>, id: string, i: nat) {
    i < |messages| && forall j :: 0 <= j < |messages| ==> (messages[j].toolCallId == Some(id) <==> j == i)
  }

  ghost predicate NoCall(messages: seq<ChatMessage>, id: string) {
    forall j :: 0 <= j < |messages| ==> messages[j].toolCallId != Some(id)
  }

  lemma OthersKeepNoCall(a: seq<ChatMessage>, e: Notification, b: seq<ChatMessage>, id: string)
    requires Shows(a, e, b) && NoCall(a, id) && !About(e, id)
    ensures NoCall(b, id)
  {
    hide Words, Repeats, Join, InputAfter;
    if |b| > |a| {
      ShowsAppend(a, e, b);
      assert b[|a|].toolCallId != Some(id);
    } else if b != a {
      hide Shows;
      var i := ShowsRewrite(a, e, b);
    }
  }

  lemma {:induction false} NoneBefore(history: seq<Notification>, states: seq<seq<ChatMessage>>, id: string, n: nat)
    requires Replay(history, states) && n <= |history| && forall k :: 0 <= k < n ==> !About(history[k], id)
    ensures NoCall(states[n], id)
  {
    hide Shows, NoCall, About;
    if n == 0 {
      NothingCalled(id);
    } else {
      NoneBefore(history, states, id, n - 1);
      OthersKeepNoCall(states[n - 1], history[n - 1], states[n], id);
    }
  }

  lemma NothingCalled(id: string)
    ensures NoCall([], id)
  {
  }

  lemma FirstShows(a: seq<ChatMessage>, e: Notification, b: seq<ChatMessage>, id: string)
    requires Shows(a, e, b) && NoCall(a, id) && About(e, id) && id != ""
    ensures OnlyCall(b, id, |a|)
    ensures b[|a|].role == Tool && b[|a|].content == FirstContent(e) && b[|a|].tool == Some(FirstInfo(e))
  {
  }

  // Nothing but its own updates changes the message of a call.
  lemma OthersKeepTool(a: seq<ChatMessage>, e: Notification, b: seq<ChatMessage>, id: string, i: nat)
    requires Shows(a, e, b) && OnlyCall(a, id, i) && a[i].role == Tool && id != "" && !Updates(e, id)
    ensures OnlyCall(b, id, i) && b[i] == a[i]
  {
    hide Words;
    assert HasCall(a, Some(id));
  }

  lemma UpdateChangesTool(a: seq<ChatMessage>, e: Notification, b: seq<ChatMessage>, id: string, i: nat)
    requires Shows(a, e, b) && OnlyCall(a, id, i) && a[i].role == Tool && a[i].tool.Some? && id != "" && Updates(e, id)
    ensures OnlyCall(b, id, i) && b[i].role == Tool && b[i].tool.Some?
    ensures b[i].content == (if OutputIn(e).Some? then OutputIn(e).value else a[i].content)
    ensures var known, shown := a[i].tool.value, b[i].tool.value;
            && shown.name == e.name
            && shown.status == (if e.status.Some? then e.status.value else known.status)
            && shown.kind == (if e.kind.Some? then e.kind else known.kind)
            && shown.rawInput == InputAfter(shown.kind, known.rawInput, e.rawInput)
            && shown.rawOutput == (if e.rawOutput.Some? then e.rawOutput else known.rawOutput)
            && shown.delegatedTaskId == (if e.delegatedTaskId.Some? then e.delegatedTaskId else known.delegatedTaskId)
  {
    hide Join, InputAfter;
    assert HasCall(a, e.callId);
  }

  lemma LastOfMore<T>(history: seq<Notification>, f: nat, id: string, get: Notification -> Option<T>, initial: Option<T>)
    requires f + 1 < |history|
    ensures LastGiven(history[f + 1..], id, get, initial)
         == (var e, n := history[|history| - 1], |history| - 1;
             if Updates(e, id) && get(e).Some? then get(e) else LastGiven(history[..n][f + 1..], id, get, initial))
  {
    assert history[f + 1..][..|history[f + 1..]| - 1] == history[..|history| - 1][f + 1..];
  }

  lemma InputOfMore(history: seq<Notification>, f: nat, id: string, first: ToolInfo)
    requires f + 1 < |history|
    ensures LastInput(history[f + 1..], id, first)
         == (var e, n := history[|history| - 1], |history| - 1;
             var known := LastInput(history[..n][f + 1..], id, first);
             if Updates(e, id) then InputAfter(LastGiven(history[f + 1..], id, KindIn, first.kind), known, e.rawInput)
             else known)
  {
    assert history[f + 1..][..|history[f + 1..]| - 1] == history[..|history| - 1][f + 1..];
  }

  lemma NextShowsTool(history: seq<Notification>, f: nat, id: string, a: seq<ChatMessage>, b: seq<ChatMessage>, i: nat)
    requires f + 1 < |history| && FirstAbout(history[..|history| - 1], id, f) && FirstAbout(history, id, f)
    requires ShowsTool(history[..|history| - 1], f, id, a, i) && Shows(a, history[|history| - 1], b)
    ensures ShowsTool(history, f, id, b, i)
  {
    hide Shows, OnlyCall, LastGiven, LastInput, InputAfter, FirstContent, FirstInfo;
    var e, first := history[|history| - 1], FirstInfo(history[f]);
    LastOfMore(history, f, id, OutputIn, Some(FirstContent(history[f])));
    LastOfMore(history, f, id, NameIn, Some(first.name));
    LastOfMore(history, f, id, StatusIn, Some(first.status));
    LastOfMore(history, f, id, KindIn, first.kind);
    LastOfMore(history, f, id, RawOutputIn, first.rawOutput);
    LastOfMore(history, f, id, TaskIn, first.delegatedTaskId);
    InputOfMore(history, f, id, first);
    if Updates(e, id) {
      UpdateChangesTool(a, e, b, id, i);
    } else {
      OthersKeepTool(a, e, b, id, i);
    }
  }

  // Each tool call that the history speaks of has exactly one message, which shows the last name, status,
  // kind, input, output and content given for it.
  lemma {:induction false} ToolIsShown(history: seq<Notification>, states: seq<seq<ChatMessage>>, f: nat, id: string)
    requires Replay(history, states) && FirstAbout(history, id, f)
    ensures exists i: nat :: ShowsTool(history, f, id, states[|history|], i)
    decreases |history|
  {
    hide Shows, ShowsTool, About;
    var n := |history| - 1;
    if f == n {
      NoneBefore(history, states, id, n);
      FirstShows(states[n], history[n], states[n + 1], id);
      OnlyFirst(history, f, id, states[n + 1], |states[n]|);
    } else {
      ReplayPrefix(history, states, n);
      ToolIsShown(history[..n], states[..n + 1], f, id);
      var i: nat :| ShowsTool(history[..n], f, id, states[n], i);
      NextShowsTool(history, f, id, states[n], states[n + 1], i);
    }
  }

  lemma OnlyFirst(history: seq<Notification>, f: nat, id: string, messages: seq<ChatMessage>, i: nat)
    requires FirstAbout(history, id, f) && f + 1 == |history| && OnlyCall(messages, id, i)
    requires messages[i].role == Tool && messages[i].content == FirstContent(history[f])
    requires messages[i].tool == Some(FirstInfo(history[f]))
    ensures ShowsTool(history, f, id, messages, i)
  {
    hide OnlyCall, FirstContent, FirstInfo;
    assert history[f + 1..] == [];
  }

  // What a transcript shows, told from the history: over some replay that ends with it, the texts that were
  // kept and the plans, in order, and of each tool call the last that was given.
  ghost predicate ShowsHistory(history: seq<Notification>, messages: seq<ChatMessage>) {
    && (exists states :: Replay(history, states) && states[|history|] == messages
                         && Contents(messages, User) == KeptTexts(history, states, User)
                         && Contents(messages, Assistant) == KeptTexts(history, states, Assistant))
    && Contents(messages, Plan) == PlanTexts(history)
    && forall id, f: nat :: FirstAbout(history, id, f) ==> exists i: nat :: ShowsTool(history, f, id, messages, i)
  }

  lemma ReplayShowsHistory(history: seq<Notification>, states: seq<seq<ChatMessage>>)
    requires Replay(history, states)
    ensures ShowsHistory(history, states[|history|])
  {
    hide Replay, ShowsTool, FirstAbout, Contents, KeptTexts, PlanTexts;
    assert |states| == |history| + 1 by { ReplayLength(history, states); }
    TextsAreShown(history, states, User);
    TextsAreShown(history, states, Assistant);
    PlansAreShown(history, states);
    forall id, f: nat | FirstAbout(history, id, f) ensures exists i: nat :: ShowsTool(history, f, id, states[|history|], i) {
      ToolIsShown(history, states, f, id);
    }
  }

  lemma ReplayLength(history: seq<Notification>, states: seq<seq<ChatMessage>>)
    requires Replay(history, states)
    ensures |states| == |history| + 1
  {
  }

  // ---- The builder ----

  class TranscriptBuilder {
    var messages: seq<ChatMessage>
    var streamingMsgId: Option<nat>
    var streamingThoughtId: Option<nat>
    var lastKind: Option<Kind>
    var nextUuid: nat

    ghost function View(): Builder
      reads this
    {
      Builder(messages, streamingMsgId, streamingThoughtId, lastKind, nextUuid)
    }

    constructor ()
      ensures View() == Start
    {
      messages, streamingMsgId, streamingThoughtId, lastKind, nextUuid := [], None, None, None, 0;
    }

    // appendStreamingChunk over one of the two stream ids; the new stream id is returned.
    method AppendChunk(stream: Option<nat>, expectedKind: Kind, role: Role, text: string) returns (messageId: nat)
      modifies this`messages, this`nextUuid
      ensures (messages, messageId, nextUuid)
           == AppendStreamingChunk(old(messages), stream, lastKind == Some(expectedKind), role, text, old(nextUuid))
    {
      var id := if lastKind != Some(expectedKind) then None else stream;
      var nextText := if id.None? then StripLeadingNewlines(text) else text;
      if id.None? {
        id := Some(nextUuid);
        nextUuid := nextUuid + 1;
      }
      messageId := id.value;
      var index := 0;
      while index < |messages| && messages[index].id != Uuid(messageId)
        invariant index <= |messages| && forall k :: 0 <= k < index ==> messages[k].id != Uuid(messageId)
      {
        index := index + 1;
      }
      if index < |messages| {
        messages := messages[index := messages[index].(content := messages[index].content + text)];
      } else {
        messages := messages + [ChatMessage(Uuid(messageId), role, nextText, None, None)];
      }
    }

    // A user_message or agent_message notification.
    method AppendTextMessage(role: Role, text: string)
      modifies this`messages
      ensures messages == AppendText(old(messages), role, text)
    {
      if text == "" { return; }
      if messages != [] {
        var lastMessage := messages[|messages| - 1];
        if lastMessage.role == role && NormalizeText(lastMessage.content) == NormalizeText(text) { return; }
      }
      messages := messages + [ChatMessage(Indexed(role, |messages|), role, text, None, None)];
    }

    method AppendToolCallMessage(callId: Option<string>, content: string, info: ToolInfo)
      modifies this`messages, this`nextUuid
      ensures View() == AppendToolCall(old(View()), callId, content, info)
    {
      var alreadyExists := callId.Some? && callId.value != ""
        && exists k :: 0 <= k < |messages| && messages[k].toolCallId == callId;
      if alreadyExists { return; }
      if callId.Some? {
        messages := messages + [ChatMessage(CallId(callId.value), Tool, content, callId, Some(info))];
      } else {
        messages := messages + [ChatMessage(Uuid(nextUuid), Tool, content, callId, Some(info))];
        nextUuid := nextUuid + 1;
      }
    }

    method ApplyToolCallUpdate(e: Notification)
      requires e.ToolCallUpdate?
      modifies this`messages, this`nextUuid
      ensures View() == ApplyToolUpdate(old(View()), e)
    {
      if e.callId.None? || e.callId.value == "" { return; }
      var index := 0;
      while index < |messages| && messages[index].toolCallId != e.callId
        invariant index <= |messages| && forall k :: 0 <= k < index ==> messages[k].toolCallId != e.callId
      {
        index := index + 1;
      }
      assert index == FindCall(messages, e.callId.value);
      if index < |messages| {
        var existing := messages[index];
        var info := if existing.tool.Some? then existing.tool.value else ToolInfo("", "", None, None, None, None);
        messages := messages[index := existing.(
          tool := Some(MergedInfo(info, e)),
          content := if e.outputParts != [] then e.name + "\n\nOutput:\n" + Join(e.outputParts, "\n") else existing.content)];
        return;
      }
      var joined := Join(e.outputParts, "\n");
      var content := if joined != "" then joined else "Tool " + if e.status.Some? then e.status.value else "update";
      var info := ToolInfo(e.name, if e.status.Some? then e.status.value else "completed",
                           e.kind, e.rawInput, e.rawOutput, e.delegatedTaskId);
      messages := messages + [ChatMessage(Uuid(nextUuid), Tool, content, e.callId, Some(info))];
      nextUuid := nextUuid + 1;
    }

    method Notify(e: Notification)
      requires Inv(View())
      modifies this
      ensures View() == Step(old(View()), e) && Inv(View())
    {
      hide Inv, OneChange;
      StepKeepsInv(View(), e);
      match e {
        case NoKind => return;
        case UserMessage(text) => AppendTextMessage(User, text);
        case AgentMessage(text) => AppendTextMessage(Assistant, text);
        case AgentChunk(text) =>
          if text != "" {
            streamingThoughtId := None;
            var id := AppendChunk(streamingMsgId, AgentChunkKind, Assistant, text);
            streamingMsgId := Some(id);
          }
        case ThoughtChunk(text) =>
          if text != "" {
            var id := AppendChunk(streamingThoughtId, ThoughtChunkKind, Thought, text);
            streamingThoughtId := Some(id);
          }
        case ToolCall(callId, content, info) => AppendToolCallMessage(callId, content, info);
        case ToolCallUpdate(_, _, _, _, _, _, _, _) => ApplyToolCallUpdate(e);
        case PlanUpdate(text) =>
          messages := messages + [ChatMessage(Uuid(nextUuid), Plan, text, None, None)];
          nextUuid := nextUuid + 1;
        case OtherKind(_) =>
      }
      lastKind := Some(KindOf(e));
    }
  }

  lemma {:induction false} FoldAppend(b: Builder, history: seq<Notification>, e: Notification)
    ensures Fold(b, history + [e]) == Step(Fold(b, history), e)
    decreases |history|
  {
    if history == [] {
      assert Fold(Step(b, e), []) == Step(b, e);
    } else {
      assert (history + [e])[1..] == history[1..] + [e];
      FoldAppend(Step(b, history[0]), history[1..], e);
    }
  }

  lemma StartInv()
    ensures Inv(Start)
  {
  }

  method HistoryNotificationsToMessages(history: seq<Notification>) returns (messages: seq<ChatMessage>)
    ensures messages == Fold(Start, history).messages
    ensures OneMessagePerCall(messages) && NoRepeatedUser(messages)
    ensures ShowsHistory(history, messages)
  {
    hide Shows, ShowsHistory, Inv;
    var builder := new TranscriptBuilder();
    assert Inv(Start) by { StartInv(); }
    ghost var states := [[]];
    for i := 0 to |history|
      invariant fresh(builder) && Inv(builder.View()) && builder.View() == Fold(Start, history[..i])
      invariant Replay(history[..i], states) && states[i] == builder.messages
    {
      assert history[..i + 1] == history[..i] + [history[i]];
      FoldAppend(Start, history[..i], history[i]);
      StepShows(builder.View(), history[i]);
      ReplayNext(history[..i], states, history[i], Step(builder.View(), history[i]).messages);
      states := states + [Step(builder.View(), history[i]).messages];
      builder.Notify(history[i]);
    }
    assert history[..|history|] == history;
    ReplayShowsHistory(history, states);
    TranscriptInvariant(history);
    messages := builder.messages;
  }
}
