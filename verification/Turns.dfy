/**
 One assistant turn with its tool rounds: what the provider streams becomes an
 assistant message, its tool calls are answered from the event bus, and the
 answers go back as one user message. Tool outputs and texts stay opaque.
 */
module Turns {
  import opened Words

  type ApiId = string
  type ActionId = nat

  datatype Output = Output(ok: bool, content: string)
  datatype Phase = Dispatched | AwaitingApproval | Approved

  /** A tool's own content, or the error composed for a call that got no result. */
  datatype Answer = FromTool(content: string) | Missing(tool: string, phase: Phase, lagged: bool)

  datatype Block =
    | Text(text: string)
    | Thinking(thinking: string, signature: string)
    | ToolUse(id: ApiId, name: string, input: string)
    | ToolResult(toolUseId: ApiId, answer: Answer, isError: bool)

  datatype Message = User(content: seq<Block>) | Assistant(content: seq<Block>)

  datatype Call = Call(id: ActionId, tool: string)

  // ---- Collecting the results of one round ----

  /** What arrives at the receiver; the three last ones end the wait. */
  datatype BusEvent =
    | ResultEvent(session: nat, call: ActionId, output: Output)
    | ApprovalPending(call: ActionId)
    | UserApproval(call: ActionId, granted: bool)
    | OtherEvent
    | Lagged
    | TimedOut
    | Closed

  predicate Ends(e: BusEvent) { e.Lagged? || e.TimedOut? || e.Closed? }

  /** Events before the wait ends; the timeout ends it when nothing else does. */
  function Heard(events: seq<BusEvent>): (h: seq<BusEvent>)
    ensures |h| <= |events| && h == events[..|h|]
    ensures forall i :: 0 <= i < |h| ==> !Ends(h[i])
    ensures |h| < |events| ==> Ends(events[|h|])
  {
    if events == [] || Ends(events[0]) then [] else [events[0]] + Heard(events[1..])
  }

  function Ending(events: seq<BusEvent>): (r: BusEvent) {
    var h := Heard(events);
    if |h| < |events| then events[|h|] else TimedOut
  }

  predicate Answers(e: BusEvent, session: nat, id: ActionId) {
    e.ResultEvent? && e.session == session && e.call == id
  }

  /** The first result for the call on its own session. */
  function FirstResult(heard: seq<BusEvent>, session: nat, id: ActionId): (r: Option<Output>) {
    if heard == [] then None
    else
      var n := |heard| - 1;
      var before := FirstResult(heard[..n], session, id);
      if before.Some? then before else if Answers(heard[n], session, id) then Some(heard[n].output) else None
  }

  /** `FirstResult` really is the first match. */
  lemma {:induction false} FirstResultMeaning(heard: seq<BusEvent>, session: nat, id: ActionId)
    ensures match FirstResult(heard, session, id)
            case None => forall i :: 0 <= i < |heard| ==> !Answers(heard[i], session, id)
            case Some(o) =>
              exists i :: 0 <= i < |heard| && Answers(heard[i], session, id) && heard[i].output == o
                       && forall j :: 0 <= j < i ==> !Answers(heard[j], session, id)
  {
    if heard != [] {
      var n := |heard| - 1;
      FirstResultMeaning(heard[..n], session, id);
      if FirstResult(heard[..n], session, id).Some? {
        var i :| 0 <= i < n && Answers(heard[..n][i], session, id)
              && heard[..n][i].output == FirstResult(heard, session, id).value
              && forall j :: 0 <= j < i ==> !Answers(heard[..n][j], session, id);
        assert Answers(heard[i], session, id);
        assert forall j :: 0 <= j < i ==> heard[j] == heard[..n][j];
      } else {
        assert forall j :: 0 <= j < n ==> heard[j] == heard[..n][j];
      }
    }
  }

  /** The approval phase the bus last reported for a call. */
  function PhaseOf(heard: seq<BusEvent>, id: ActionId): (r: Phase) {
    if heard == [] then Dispatched
    else
      var e := heard[|heard| - 1];
      if e.ApprovalPending? && e.call == id then AwaitingApproval
      else if e.UserApproval? && e.granted && e.call == id then Approved
      else PhaseOf(heard[..|heard| - 1], id)
  }

  /** The bus says where approval of the call stands. */
  predicate Reports(e: BusEvent, id: ActionId) {
    (e.ApprovalPending? && e.call == id) || (e.UserApproval? && e.granted && e.call == id)
  }

  predicate LastReport(heard: seq<BusEvent>, i: nat, id: ActionId) {
    i < |heard| && Reports(heard[i], id) && forall j :: i < j < |heard| ==> !Reports(heard[j], id)
  }

  /** `PhaseOf` really is the last report; a refusal is none. */
  lemma {:induction false} PhaseMeaning(heard: seq<BusEvent>, id: ActionId)
    ensures match PhaseOf(heard, id)
            case Dispatched => forall i :: 0 <= i < |heard| ==> !Reports(heard[i], id)
            case AwaitingApproval => exists i: nat :: LastReport(heard, i, id) && heard[i].ApprovalPending?
            case Approved => exists i: nat :: LastReport(heard, i, id) && heard[i].UserApproval?
  {
    if heard != [] {
      var n := |heard| - 1;
      var most := heard[..n];
      PhaseMeaning(most, id);
      if Reports(heard[n], id) {
        assert LastReport(heard, n, id);
      } else {
        forall i: nat | LastReport(most, i, id) ensures LastReport(heard, i, id) && heard[i] == most[i] {}
        assert forall i :: 0 <= i < n ==> heard[i] == most[i];
      }
    }
  }

  function AnswerBlock(c: Call, idMap: map<ActionId, ApiId>, result: Option<Output>, phase: Phase, lagged: bool,
                       rewrite: string -> string): (r: Block) {
    var apiId := if c.id in idMap then idMap[c.id] else "";
    match result
    case Some(o) => ToolResult(apiId, FromTool(if o.ok then rewrite(o.content) else o.content), !o.ok)
    case None => ToolResult(apiId, Missing(c.tool, phase, lagged), true)
  }

  function AnswerAll(pending: seq<Call>, idMap: map<ActionId, ApiId>, heard: seq<BusEvent>, session: nat, lagged: bool,
                     rewrite: string -> string): (blocks: seq<Block>)
    ensures |blocks| == |pending|
  {
    seq(|pending|, i requires 0 <= i < |pending| =>
      AnswerBlock(pending[i], idMap, FirstResult(heard, session, pending[i].id), PhaseOf(heard, pending[i].id),
                  lagged, rewrite))
  }

  ghost predicate AllAnswered(pending: seq<Call>, heard: seq<BusEvent>, session: nat) {
    forall i :: 0 <= i < |pending| ==> FirstResult(heard, session, pending[i].id).Some?
  }

  /** What a round's collection must return: an error only if the bus closed on unanswered calls. */
  ghost function Collected(session: nat, pending: seq<Call>, idMap: map<ActionId, ApiId>, events: seq<BusEvent>,
                           rewrite: string -> string): (r: Option<seq<Block>>) {
    var heard := Heard(events);
    if !AllAnswered(pending, heard, session) && Ending(events) == Closed then None
    else Some(AnswerAll(pending, idMap, heard, session, Ending(events) == Lagged, rewrite))
  }

  /** The collector's bookkeeping. */
  datatype Books = Books(remaining: set<ActionId>, results: map<ActionId, Output>, phases: map<ActionId, Phase>)

  /** One event entered in the books. */
  function Note(b: Books, session: nat, e: BusEvent): (r: Books) {
    match e
    case ResultEvent(s, call, output) =>
      if s == session && call in b.remaining
      then b.(remaining := b.remaining - {call}, results := b.results[call := output]) else b
    case ApprovalPending(call) =>
      if call in b.remaining then b.(phases := b.phases[call := AwaitingApproval]) else b
    case UserApproval(call, granted) =>
      if granted && call in b.remaining then b.(phases := b.phases[call := Approved]) else b
    case _ => b
  }

  /** What the books say about one call after `heard`. */
  ghost predicate TracksCall(id: ActionId, session: nat, heard: seq<BusEvent>, b: Books) {
    var r := FirstResult(heard, session, id);
    && (id in b.remaining <==> r.None?)
    && (id in b.results <==> r.Some?) && (r.Some? ==> b.results[id] == r.value)
    && id in b.phases && (r.None? ==> b.phases[id] == PhaseOf(heard, id))
  }

  ghost predicate Tracks(pending: seq<Call>, session: nat, heard: seq<BusEvent>, b: Books) {
    forall i :: 0 <= i < |pending| ==> TracksCall(pending[i].id, session, heard, b)
  }

  ghost predicate OnlyPending(pending: seq<Call>, remaining: set<ActionId>) {
    forall id :: id in remaining ==> exists i :: 0 <= i < |pending| && pending[i].id == id
  }

  lemma NoteTracks(pending: seq<Call>, session: nat, heard: seq<BusEvent>, e: BusEvent, b: Books)
    requires Tracks(pending, session, heard, b)
    ensures Tracks(pending, session, heard + [e], Note(b, session, e))
  {
    assert (heard + [e])[..|heard|] == heard;
  }

  lemma {:induction false} LaterResultsDoNotCount(heard: seq<BusEvent>, k: nat, session: nat, id: ActionId)
    requires k <= |heard| && FirstResult(heard[..k], session, id).Some?
    ensures FirstResult(heard, session, id) == FirstResult(heard[..k], session, id)
    decreases |heard|
  {
    if k < |heard| {
      assert heard[..|heard| - 1][..k] == heard[..k];
      LaterResultsDoNotCount(heard[..|heard| - 1], k, session, id);
    } else {
      assert heard[..k] == heard;
    }
  }

  /** Stopping early, with every call answered, gives what the whole wait would have given. */
  lemma AnsweredEarly(session: nat, pending: seq<Call>, idMap: map<ActionId, ApiId>, heard: seq<BusEvent>, k: nat,
                      lagged: bool, rewrite: string -> string)
    requires k <= |heard| && AllAnswered(pending, heard[..k], session)
    ensures AllAnswered(pending, heard, session)
    ensures AnswerAll(pending, idMap, heard, session, lagged, rewrite)
         == AnswerAll(pending, idMap, heard[..k], session, false, rewrite)
  {
    forall i | 0 <= i < |pending|
      ensures FirstResult(heard, session, pending[i].id) == FirstResult(heard[..k], session, pending[i].id)
    {
      LaterResultsDoNotCount(heard, k, session, pending[i].id);
    }
  }

  /** The answers composed from the books, in call order. */
  method Compose(session: nat, pending: seq<Call>, idMap: map<ActionId, ApiId>, ghost heard: seq<BusEvent>, b: Books,
                 lagged: bool, rewrite: string -> string) returns (out: seq<Block>)
    requires Tracks(pending, session, heard, b)
    ensures out == AnswerAll(pending, idMap, heard, session, lagged, rewrite)
  {
    out := [];
    var i := 0;
    while i < |pending|
      invariant i <= |pending| && |out| == i
      invariant out == AnswerAll(pending, idMap, heard, session, lagged, rewrite)[..i]
    {
      var c := pending[i];
      assert TracksCall(c.id, session, heard, b);
      var result := if c.id in b.results then Some(b.results[c.id]) else None;
      out := out + [AnswerBlock(c, idMap, result, b.phases[c.id], lagged, rewrite)];
      i := i + 1;
    }
  }

  /** The wait: read events until every call is answered or the wait ends. */
  method AwaitResults(session: nat, pending: seq<Call>, events: seq<BusEvent>) returns (b: Books, k: nat)
    ensures k <= |Heard(events)|
    ensures Tracks(pending, session, Heard(events)[..k], b) && OnlyPending(pending, b.remaining)
    ensures b.remaining == {} || k == |Heard(events)|
  {
    var ids := set c | c in pending :: c.id;
    b := Books(ids, map[], map id | id in ids :: Dispatched);
    assert forall i :: 0 <= i < |pending| ==> pending[i] in pending;
    k := 0;
    while b.remaining != {} && k < |events| && !Ends(events[k])
      invariant k <= |Heard(events)|
      invariant Tracks(pending, session, Heard(events)[..k], b)
      invariant OnlyPending(pending, b.remaining)
      decreases |events| - k
    {
      NoteTracks(pending, session, Heard(events)[..k], events[k], b);
      assert Heard(events)[..k] + [events[k]] == Heard(events)[..k + 1];
      b := Note(b, session, events[k]);
      k := k + 1;
    }
  }

  method CollectToolResults(session: nat, pending: seq<Call>, idMap: map<ActionId, ApiId>, events: seq<BusEvent>,
                            rewrite: string -> string) returns (r: Option<seq<Block>>)
    ensures r == Collected(session, pending, idMap, events, rewrite)
  {
    var b, k := AwaitResults(session, pending, events);
    ghost var heard := Heard(events);
    var lagged := false;
    if b.remaining == {} {
      AnsweredEarly(session, pending, idMap, heard, k, Ending(events) == Lagged, rewrite);
    } else {
      assert heard[..k] == heard;
      if k < |events| && events[k].Closed? {
        return None;
      }
      lagged := k < |events| && events[k].Lagged?;
    }
    var out := Compose(session, pending, idMap, heard[..k], b, lagged, rewrite);
    return Some(out);
  }

  // ---- The turn ----

  datatype Chunk =
    | TextDelta
    | ThinkingDelta
    | TextBlock(text: string)
    | ThinkingBlock(thinking: string, signature: string)
    | UseChunk(id: ApiId, name: string, input: string)
    | StreamDone
    | StreamError

  /** One provider call's stream, and what the bus carries while its tools run. */
  datatype Round = Round(stream: seq<Chunk>, events: seq<BusEvent>)

  datatype Reply = Reply(blocks: seq<Block>, pending: seq<Call>, idMap: map<ActionId, ApiId>, used: nat)

  /** `alloc(i)` is the id the process-wide counter gives the turn's `i`-th call. */
  type Alloc = nat -> ActionId

  ghost predicate NeverRepeats(alloc: Alloc) {
    forall i: nat, j: nat :: i != j ==> alloc(i) != alloc(j)
  }

  /** One chunk taken into the reply; deltas only go to the bus. */
  function TakeChunk(r: Reply, c: Chunk, alloc: Alloc): (result: Reply) {
    match c
    case TextBlock(t) => r.(blocks := r.blocks + [Text(t)])
    case ThinkingBlock(t, s) => r.(blocks := r.blocks + [Thinking(t, s)])
    case UseChunk(id, name, input) =>
      var action := alloc(r.used);
      Reply(r.blocks + [ToolUse(id, name, input)], r.pending + [Call(action, name)], r.idMap[action := id], r.used + 1)
    case _ => r
  }

  /** `None` when the stream fails; it ends at its own end or at `StreamDone`. */
  function ReadStream(stream: seq<Chunk>, r: Reply, alloc: Alloc): (result: Option<Reply>)
    decreases |stream|
  {
    if stream == [] || stream[0].StreamDone? then Some(r)
    else if stream[0].StreamError? then None
    else ReadStream(stream[1..], TakeChunk(r, stream[0], alloc), alloc)
  }

  const EMPTY_REPLY: string := "(empty reply)"

  /** The history a turn returns; `None` when it fails or the provider is not called again. */
  ghost function RunTurn(session: nat, history: seq<Message>, rounds: seq<Round>, idMap: map<ActionId, ApiId>,
                         used: nat, alloc: Alloc, rewrite: string -> string): (r: Option<seq<Message>>)
    decreases |rounds|
  {
    if rounds == [] then None
    else
      match ReadStream(rounds[0].stream, Reply([], [], idMap, used), alloc)
      case None => None
      case Some(reply) =>
        if reply.blocks == [] && reply.pending == [] then Some(history + [Assistant([Text(EMPTY_REPLY)])])
        else
          var said := history + [Assistant(reply.blocks)];
          if reply.pending == [] then Some(said)
          else
            match Collected(session, reply.pending, reply.idMap, rounds[0].events, rewrite)
            case None => None
            case Some(answers) =>
              RunTurn(session, said + [User(answers)], rounds[1..], reply.idMap, reply.used, alloc, rewrite)
  }

  method Stream(stream: seq<Chunk>, start: Reply, alloc: Alloc) returns (r: Option<Reply>)
    ensures r == ReadStream(stream, start, alloc)
  {
    var reply := start;
    var i := 0;
    while i < |stream| && !stream[i].StreamDone?
      invariant i <= |stream|
      invariant ReadStream(stream, start, alloc) == ReadStream(stream[i..], reply, alloc)
    {
      if stream[i].StreamError? {
        return None;
      }
      reply := TakeChunk(reply, stream[i], alloc);
      assert stream[i..][1..] == stream[i + 1..];
      i := i + 1;
    }
    return Some(reply);
  }

  /** The loop itself, pushing onto the history. */
  method Run(session: nat, before: seq<Message>, rounds: seq<Round>, alloc: Alloc, rewrite: string -> string)
    returns (r: Option<seq<Message>>)
    ensures r == RunTurn(session, before, rounds, map[], 0, alloc, rewrite)
  {
    var history, idMap, used := before, map[], 0;
    var k := 0;
    while k < |rounds|
      invariant k <= |rounds|
      invariant RunTurn(session, before, rounds, map[], 0, alloc, rewrite)
             == RunTurn(session, history, rounds[k..], idMap, used, alloc, rewrite)
    {
      var read := Stream(rounds[k].stream, Reply([], [], idMap, used), alloc);
      if read.None? {
        return None;
      }
      var reply := read.value;
      if reply.blocks == [] && reply.pending == [] {
        history := history + [Assistant([Text(EMPTY_REPLY)])];
        return Some(history);
      }
      history := history + [Assistant(reply.blocks)];
      if reply.pending == [] {
        return Some(history);
      }
      var answers := CollectToolResults(session, reply.pending, reply.idMap, rounds[k].events, rewrite);
      if answers.None? {
        return None;
      }
      history := history + [User(answers.value)];
      idMap, used := reply.idMap, reply.used;
      assert rounds[k..][1..] == rounds[k + 1..];
      k := k + 1;
    }
    return None;
  }

  // ---- Pairing ----

  /** The tool uses of a message, in order. */
  function Uses(content: seq<Block>): (r: seq<ApiId>) {
    if content == [] then []
    else
      var last := content[|content| - 1];
      Uses(content[..|content| - 1]) + if last.ToolUse? then [last.id] else []
  }

  /** One result per use, in the order of the uses. */
  predicate AnswersInOrder(uses: seq<ApiId>, content: seq<Block>) {
    |content| == |uses| && forall i :: 0 <= i < |uses| ==> content[i].ToolResult? && content[i].toolUseId == uses[i]
  }

  /**
   What a finished turn appends: assistant messages and answers alternating,
   none empty, each assistant message with tool uses followed at once by its
   answers, the last one without uses.
   */
  ghost predicate WellPaired(added: seq<Message>)
    decreases |added|
  {
    && added != [] && added[0].Assistant? && added[0].content != []
    && (if |added| == 1 then Uses(added[0].content) == []
        else
          && Uses(added[0].content) != []
          && added[1].User? && AnswersInOrder(Uses(added[0].content), added[1].content)
          && WellPaired(added[2..]))
  }

  /** The reply's bookkeeping: its calls are its uses, under ids not given before. */
  ghost predicate ReplyOk(r: Reply, alloc: Alloc, base: nat) {
    && base <= r.used
    && |r.pending| == |Uses(r.blocks)| == r.used - base
    && forall i :: 0 <= i < |r.pending| ==>
         && r.pending[i].id == alloc(base + i) && r.pending[i].id in r.idMap
         && r.idMap[r.pending[i].id] == Uses(r.blocks)[i]
  }

  lemma {:induction false} StreamKeepsBooks(stream: seq<Chunk>, r: Reply, alloc: Alloc, base: nat)
    requires NeverRepeats(alloc) && ReplyOk(r, alloc, base)
    ensures ReadStream(stream, r, alloc).Some? ==>
              ReplyOk(ReadStream(stream, r, alloc).value, alloc, base)
    decreases |stream|
  {
    if stream != [] && !stream[0].StreamDone? && !stream[0].StreamError? {
      ChunkKeepsBooks(r, stream[0], alloc, base);
      StreamKeepsBooks(stream[1..], TakeChunk(r, stream[0], alloc), alloc, base);
    }
  }

  lemma ChunkKeepsBooks(r: Reply, c: Chunk, alloc: Alloc, base: nat)
    requires NeverRepeats(alloc) && ReplyOk(r, alloc, base)
    ensures ReplyOk(TakeChunk(r, c, alloc), alloc, base)
  {
    var v := TakeChunk(r, c, alloc);
    if v.blocks != r.blocks { assert v.blocks[..|v.blocks| - 1] == r.blocks; }
  }

  // ---- What is said ----

  /** The blocks a stream closed, in order, up to its end. */
  function ClosedBlocks(stream: seq<Chunk>): (blocks: seq<Block>) {
    if stream == [] || stream[0].StreamDone? then []
    else
      (match stream[0]
       case TextBlock(t) => [Text(t)]
       case ThinkingBlock(t, s) => [Thinking(t, s)]
       case UseChunk(id, name, input) => [ToolUse(id, name, input)]
       case _ => [])
      + ClosedBlocks(stream[1..])
  }

  /** An error arrives before the stream is done. */
  predicate Fails(stream: seq<Chunk>) {
    stream != [] && !stream[0].StreamDone? && (stream[0].StreamError? || Fails(stream[1..]))
  }

  /** Nothing streamed is lost, added or reordered: the reply is the closed blocks, unless the stream fails. */
  lemma {:induction false} ReplyIsTheStream(stream: seq<Chunk>, r: Reply, alloc: Alloc)
    ensures match ReadStream(stream, r, alloc)
            case None => Fails(stream)
            case Some(reply) => !Fails(stream) && reply.blocks == r.blocks + ClosedBlocks(stream)
    decreases |stream|
  {
    if stream != [] && !stream[0].StreamDone? && !stream[0].StreamError? {
      ReplyIsTheStream(stream[1..], TakeChunk(r, stream[0], alloc), alloc);
    }
  }

  /** The assistant message a round's stream makes. */
  function Said(stream: seq<Chunk>): (m: Message) {
    Assistant(if ClosedBlocks(stream) == [] then [Text("(empty reply)")] else ClosedBlocks(stream))
  }

  /** A round's calls are its message's uses, and what is collected answers them in order. */
  lemma RoundPairs(session: nat, round: Round, start: Reply, alloc: Alloc, rewrite: string -> string)
    requires NeverRepeats(alloc) && start.blocks == [] && start.pending == []
    ensures var r := ReadStream(round.stream, start, alloc);
            r.Some? ==>
              var reply := r.value;
              var answers := Collected(session, reply.pending, reply.idMap, round.events, rewrite);
              && |reply.pending| == |Uses(reply.blocks)|
              && (answers.Some? ==> AnswersInOrder(Uses(reply.blocks), answers.value))
  {
    StreamKeepsBooks(round.stream, start, alloc, start.used);
  }

  /**
   One round taken off a turn that succeeds: it says its stream, and either ends there
   without tool uses or goes on after one answer to each use.
   */
  lemma OneRound(session: nat, history: seq<Message>, rounds: seq<Round>, idMap: map<ActionId, ApiId>, used: nat,
                 alloc: Alloc, rewrite: string -> string)
    returns (next: seq<Message>, nextMap: map<ActionId, ApiId>, nextUsed: nat)
    requires NeverRepeats(alloc) && RunTurn(session, history, rounds, idMap, used, alloc, rewrite).Some?
    ensures rounds != []
    ensures var h, m := RunTurn(session, history, rounds, idMap, used, alloc, rewrite), Said(rounds[0].stream);
            || (h == Some(history + [m]) && Uses(m.content) == [])
            || (GoesOn(history, m, next)
                && h == RunTurn(session, next, rounds[1..], nextMap, nextUsed, alloc, rewrite))
  {
    var start := Reply([], [], idMap, used);
    ReplyIsTheStream(rounds[0].stream, start, alloc);
    RoundPairs(session, rounds[0], start, alloc, rewrite);
    var reply := ReadStream(rounds[0].stream, start, alloc).value;
    assert [] + ClosedBlocks(rounds[0].stream) == ClosedBlocks(rounds[0].stream);
    next, nextMap, nextUsed := history, reply.idMap, reply.used;
    if reply.pending != [] {
      var answers := Collected(session, reply.pending, reply.idMap, rounds[0].events, rewrite).value;
      next := history + [Assistant(reply.blocks)] + [User(answers)];
      assert GoesOn(history, Said(rounds[0].stream), next);
    } else if reply.blocks == [] {
      assert [] + [Text(EMPTY_REPLY)] == [Text(EMPTY_REPLY)];
    }
  }

  /** The message was appended and each of its uses, of which there are some, answered in order. */
  ghost predicate GoesOn(history: seq<Message>, m: Message, next: seq<Message>) {
    && |next| == |history| + 2 && history + [m] <= next
    && Uses(m.content) != [] && next[|history| + 1].User?
    && AnswersInOrder(Uses(m.content), next[|history| + 1].content)
  }

  /** Every other message a turn appends is what the next round's stream said, whole. */
  lemma {:induction false} TurnSaysTheStreams(session: nat, history: seq<Message>, rounds: seq<Round>,
                                              idMap: map<ActionId, ApiId>, used: nat, alloc: Alloc,
                                              rewrite: string -> string, h: seq<Message>)
    requires NeverRepeats(alloc) && RunTurn(session, history, rounds, idMap, used, alloc, rewrite) == Some(h)
    ensures SaysTheStreams(|history|, rounds, h) && history <= h
    decreases |rounds|
  {
    var said := history + [Said(rounds[0].stream)];
    var next, nextMap, nextUsed := OneRound(session, history, rounds, idMap, used, alloc, rewrite);
    if h == said {
      assert |h| == |history| + 1;
    } else {
      TurnSaysTheStreams(session, next, rounds[1..], nextMap, nextUsed, alloc, rewrite, h);
    }
  }

  /** From message `n` on, every other one of `h` is what the next round's stream said. */
  ghost predicate SaysTheStreams(n: nat, rounds: seq<Round>, h: seq<Message>)
    decreases |rounds|
  {
    n < |h| ==> rounds != [] && h[n] == Said(rounds[0].stream) && SaysTheStreams(n + 2, rounds[1..], h)
  }

  /**
   Tool pairing: for every stream and every order of bus events, lag and timeout
   included, a turn that succeeds only appends, and what it appends is well paired.
   */
  lemma {:induction false} TurnIsWellPaired(session: nat, history: seq<Message>, rounds: seq<Round>,
                                            idMap: map<ActionId, ApiId>, used: nat, alloc: Alloc,
                                            rewrite: string -> string, h: seq<Message>)
    requires NeverRepeats(alloc) && RunTurn(session, history, rounds, idMap, used, alloc, rewrite) == Some(h)
    ensures history <= h && WellPaired(h[|history|..])
    decreases |rounds|
  {
    var m := Said(rounds[0].stream);
    var next, nextMap, nextUsed := OneRound(session, history, rounds, idMap, used, alloc, rewrite);
    if h == history + [m] && Uses(m.content) == [] {
      assert h[|history|..] == [m];
    } else {
      TurnIsWellPaired(session, next, rounds[1..], nextMap, nextUsed, alloc, rewrite, h);
      RoundIsPaired(history, m, next, h);
    }
  }

  lemma RoundIsPaired(history: seq<Message>, m: Message, next: seq<Message>, h: seq<Message>)
    requires GoesOn(history, m, next) && m.Assistant? && m.content != []
    requires next <= h && WellPaired(h[|next|..])
    ensures WellPaired(h[|history|..])
  {
    var added := h[|history|..];
    assert added[0] == m && added[1] == next[|history| + 1];
    assert added[2..] == h[|next|..];
  }

  /** A turn succeeds unless a stream fails, the bus closes on it, or every round asks for tools. */
  lemma {:induction false} TurnSucceeds(session: nat, history: seq<Message>, rounds: seq<Round>,
                                        idMap: map<ActionId, ApiId>, used: nat, alloc: Alloc,
                                        rewrite: string -> string)
    requires NeverRepeats(alloc)
    requires forall r <- rounds :: !Fails(r.stream) && Ending(r.events) != Closed
    requires exists r <- rounds :: Uses(ClosedBlocks(r.stream)) == []
    ensures RunTurn(session, history, rounds, idMap, used, alloc, rewrite).Some?
    decreases |rounds|
  {
    var start := Reply([], [], idMap, used);
    assert rounds[0] in rounds;
    ReplyIsTheStream(rounds[0].stream, start, alloc);
    StreamKeepsBooks(rounds[0].stream, start, alloc, used);
    var reply := ReadStream(rounds[0].stream, start, alloc).value;
    assert [] + ClosedBlocks(rounds[0].stream) == ClosedBlocks(rounds[0].stream);
    if reply.pending != [] {
      var answers := Collected(session, reply.pending, reply.idMap, rounds[0].events, rewrite).value;
      var next := history + [Assistant(reply.blocks)] + [User(answers)];
      TurnSucceeds(session, next, rounds[1..], reply.idMap, reply.used, alloc, rewrite);
    }
  }

  /** Each answer is the call's first result on its own session, or an error naming where the call stood. */
  lemma EachAnswerIsFirstOrMissing(session: nat, pending: seq<Call>, idMap: map<ActionId, ApiId>, events: seq<BusEvent>,
                                   rewrite: string -> string, i: nat)
    requires Collected(session, pending, idMap, events, rewrite).Some? && i < |pending|
    ensures var b := Collected(session, pending, idMap, events, rewrite).value[i];
            var heard, c := Heard(events), pending[i];
            if exists k :: 0 <= k < |heard| && Answers(heard[k], session, c.id) then
              exists k :: 0 <= k < |heard| && Answers(heard[k], session, c.id)
                && (forall j :: 0 <= j < k ==> !Answers(heard[j], session, c.id))
                && b.isError == !heard[k].output.ok
                && b.answer == FromTool(if heard[k].output.ok then rewrite(heard[k].output.content)
                                        else heard[k].output.content)
            else
              b.isError && b.answer == Missing(c.tool, PhaseOf(heard, c.id), Ending(events) == Lagged)
              && Ending(events) != Closed
  {
    var heard := Heard(events);
    FirstResultMeaning(heard, session, pending[i].id);
  }
}
