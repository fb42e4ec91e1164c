// One reply per request (src/libs/ws/session.rs, src/libs/ws/handler.rs): hooks, then the handler,
// then more hooks, raced against a deadline, with a `responded` cell between them.
module Reply {
  import opened Wrappers
  import opened Json
  import opened JsonRpc

  const BAD_REQUEST := 100400
  const FORBIDDEN := 100403
  const REQUEST_TIMEOUT := 100408
  const TOO_MANY_REQUESTS := 100429
  const APP_INTERNAL_ERROR := 100500
  const NOT_IMPLEMENTED := 100501

  const RPC_BUSY := -32000
  const RPC_TIMED_OUT := -32001

  // The part of the request context that addresses a reply.
  datatype Context = Context(connection: nat, callee: nat, seqNo: nat)

  // Which protocol the request came by. `callee` in the context is the method code on both.
  datatype Path = Legacy | Rpc(id: RpcId)

  datatype Frame =
    | Immediate(callee: nat, seqNo: nat, params: Value)
    | Failure(callee: nat, seqNo: nat, code: nat)
    | RpcFrame(frame: Value)

  datatype Reply = Reply(connection: nat, frame: Frame)

  // An error meant for the caller: its code, the name of the code, and its parameters.
  datatype CustomError = CustomError(code: nat, kind: string, params: Value)

  // A success carries its value and the value as text, or None when it does not serialize.
  datatype HandlerResult = Success(value: Option<(Value, string)>) | Public(error: CustomError) | Internal | NoResponse

  function TextContent(text: string): Value {
    Arr([Obj(map["type" := Str("text"), "text" := Str(text)])])
  }

  function ToolSuccess(v: Value, text: string): Value {
    Obj(map["content" := TextContent(text), "structuredContent" := v, "isError" := Bool(false)])
  }

  function MessageOf(e: CustomError): string {
    if e.params.Obj? && "message" in e.params.members && e.params.members["message"].Str?
    then e.params.members["message"].s else e.kind
  }

  function ToolFailure(e: CustomError): Value {
    var error := Obj(map["kind" := Str(e.kind), "appCode" := Int(e.code), "params" := e.params]);
    Obj(map["content" := TextContent(MessageOf(e)), "structuredContent" := Obj(map["error" := error]), "isError" := Bool(true)])
  }

  function RpcReply(ctx: Context, frame: Value): Option<Reply> {
    Some(Reply(ctx.connection, RpcFrame(frame)))
  }

  // The frames. `ctx` is the context at the time: the hooks may have changed it.

  function Rejection(path: Path, start: Context, ctx: Context, error: CustomError): Reply {
    match path
    case Legacy => Reply(ctx.connection, Failure(ctx.callee, ctx.seqNo, error.code))
    case Rpc(id) => Reply(start.connection, RpcFrame(ResultFrame(Some(id), ToolFailure(error))))
  }

  function Malformed(path: Path, ctx: Context): Reply {
    match path
    case Legacy => Reply(ctx.connection, Failure(ctx.callee, ctx.seqNo, BAD_REQUEST))
    case Rpc(id) => Reply(ctx.connection, RpcFrame(ErrorFrame(Some(id), RpcError(INVALID_PARAMS, "Invalid params", None))))
  }

  function Answer(path: Path, ctx: Context, r: HandlerResult): Option<Reply> {
    match path
    case Legacy =>
      (match r
       case Success(Some((v, _))) => Some(Reply(ctx.connection, Immediate(ctx.callee, ctx.seqNo, v)))
       case Success(None) => Some(Reply(ctx.connection, Failure(ctx.callee, ctx.seqNo, APP_INTERNAL_ERROR)))
       case Public(error) => Some(Reply(ctx.connection, Failure(ctx.callee, ctx.seqNo, error.code)))
       case Internal => Some(Reply(ctx.connection, Failure(ctx.callee, ctx.seqNo, APP_INTERNAL_ERROR)))
       case NoResponse => None)
    case Rpc(id) =>
      (match r
       case Success(Some((v, text))) => RpcReply(ctx, ResultFrame(Some(id), ToolSuccess(v, text)))
       case Success(None) => RpcReply(ctx, ErrorFrame(Some(id), RpcError(INTERNAL_ERROR, "Internal error", None)))
       case Public(error) => RpcReply(ctx, ResultFrame(Some(id), ToolFailure(error)))
       case Internal => RpcReply(ctx, ErrorFrame(Some(id), RpcError(INTERNAL_ERROR, "Internal error", None)))
       case NoResponse => None)
  }

  function TimedOut(path: Path, start: Context): Reply {
    match path
    case Legacy => Reply(start.connection, Failure(start.callee, start.seqNo, REQUEST_TIMEOUT))
    case Rpc(id) => Reply(start.connection, RpcFrame(ErrorFrame(Some(id), RpcError(RPC_TIMED_OUT, "request timed out", None))))
  }

  // A reply is addressed to the request when it goes to its connection and carries its method and
  // sequence number, or is a JSON-RPC response to its id.
  ghost predicate AddressedTo(r: Reply, path: Path, start: Context) {
    && r.connection == start.connection
    && match path
       case Legacy => !r.frame.RpcFrame? && r.frame.callee == start.callee && r.frame.seqNo == start.seqNo
       case Rpc(id) => r.frame.RpcFrame? && IsResponse(r.frame.frame, IdValue(Some(id)))
  }

  // At the door: each request that is not admitted is answered at once; one that is becomes a task.
  datatype Door = Door(known: bool, allowed: bool, slotFree: bool)

  function Admit(path: Path, start: Context, d: Door): Option<Reply> {
    match path
    case Legacy =>
      if !d.known then Some(Reply(start.connection, Failure(start.callee, start.seqNo, NOT_IMPLEMENTED)))
      else if !d.allowed then Some(Reply(start.connection, Failure(start.callee, start.seqNo, FORBIDDEN)))
      else if !d.slotFree then Some(Reply(start.connection, Failure(start.callee, start.seqNo, TOO_MANY_REQUESTS)))
      else None
    case Rpc(id) =>
      if !d.known then RpcReply(start, ErrorFrame(Some(id), RpcError(METHOD_NOT_FOUND, "Method not found", None)))
      else if !d.slotFree then RpcReply(start, ErrorFrame(Some(id), RpcError(RPC_BUSY, "server busy", None)))
      else None
  }

  lemma RefusedAtTheDoor(path: Path, start: Context, d: Door)
    ensures Admit(path, start, d).Some? ==> AddressedTo(Admit(path, start, d).value, path, start)
    ensures path.Legacy? ==> (Admit(path, start, d).None? <==> d.known && d.allowed && d.slotFree)
  {
    if path.Rpc? {
      ErrorFrameIsResponse(Some(path.id), RpcError(METHOD_NOT_FOUND, "Method not found", None));
      ErrorFrameIsResponse(Some(path.id), RpcError(RPC_BUSY, "server busy", None));
    }
    hide IsResponse;
  }

  // The future of one request, by the await it stands at.
  datatype Pc = Before(hook: nat) | Handling | After(hook: nat) | Finished

  datatype Config = Config(before: nat, after: nat, deadline: bool)

  // What the reply came of: a hook's rejection, the handler or the failure to read its parameters,
  // the deadline.
  datatype Cause = Nothing | Rejected | Handled | Expired

  datatype State = State(
    pc: Pc,
    ctx: Context,
    responded: bool,
    replies: seq<Reply>,
    cause: Cause,
    silent: bool)  // the handler asked for no response

  datatype Action =
    | HookPasses(ctx: Context)
    | HookRejects(ctx: Context, error: CustomError)
    | CannotRead                   // the parameters do not deserialize
    | HandlerEnds(result: HandlerResult)
    | HookObserves
    | Expire                       // the deadline, at whatever await it stands

  // Passing a stretch that does not suspend.
  function Enter(c: Config, pc: Pc): Pc {
    match pc
    case Before(i) => if i < c.before then pc else Handling
    case After(i) => if i < c.after then pc else Finished
    case _ => pc
  }

  function Initial(c: Config, start: Context): State {
    State(Enter(c, Before(0)), start, false, [], Nothing, false)
  }

  predicate Enabled(c: Config, s: State, a: Action) {
    match a
    case HookPasses(_) => s.pc.Before?
    case HookRejects(_, _) => s.pc.Before?
    case CannotRead => s.pc.Handling?
    case HandlerEnds(_) => s.pc.Handling?
    case HookObserves => s.pc.After?
    case Expire => c.deadline && !s.pc.Finished?
  }

  function Next(c: Config, path: Path, start: Context, s: State, a: Action): State
    requires Enabled(c, s, a)
  {
    match a
    case HookPasses(ctx) => s.(ctx := ctx, pc := Enter(c, Before(s.pc.hook + 1)))
    case HookRejects(ctx, error) =>
      s.(ctx := ctx, responded := true, replies := s.replies + [Rejection(path, start, ctx, error)], cause := Rejected,
         pc := Enter(c, After(0)))
    case CannotRead =>
      s.(replies := s.replies + [Malformed(path, s.ctx)], cause := Handled, responded := true, pc := Enter(c, After(0)))
    case HandlerEnds(result) =>
      var reply := Answer(path, s.ctx, result);
      s.(replies := if reply.Some? then s.replies + [reply.value] else s.replies,
         cause := Handled, silent := reply.None?, responded := true, pc := Enter(c, After(0)))
    case HookObserves => s.(pc := Enter(c, After(s.pc.hook + 1)))
    case Expire =>
      if s.responded then s.(pc := Finished)
      else s.(pc := Finished, replies := s.replies + [TimedOut(path, start)], cause := Expired)
  }

  ghost predicate IsRun(c: Config, path: Path, start: Context, run: seq<State>, actions: seq<Action>) {
    && |run| == |actions| + 1
    && run[0] == Initial(c, start)
    && forall i :: 0 <= i < |actions| ==> Enabled(c, run[i], actions[i]) && run[i + 1] == Next(c, path, start, run[i], actions[i])
  }

  // Whether a reply is safe from what hooks have made of the context. The deadline kept its own
  // copy; a rejection on the JSON-RPC path was given the connection and the id before the hooks
  // ran, and the handler's replies there the id.
  predicate Unharmed(path: Path, start: Context, ctx: Context, cause: Cause) {
    || cause.Expired?
    || ctx == start
    || (path.Rpc? && (cause.Rejected? || ctx.connection == start.connection))
  }

  ghost predicate Inv(path: Path, start: Context, s: State) {
    && (s.pc.Before? || s.pc.Handling? ==> !s.responded && s.replies == [] && !s.silent)
    && (s.pc.After? ==> s.responded)
    && (s.responded || s.pc.Finished? ==> |s.replies| == if s.silent then 0 else 1)
    && (s.silent ==> s.responded)
    && (forall r :: r in s.replies ==> (AddressedTo(r, path, start) <==> Unharmed(path, start, s.ctx, s.cause)))
  }

  // Each kind of reply, from whatever context the hooks have left, is addressed to its request
  // exactly when it is safe from that; and only NoResponse makes none.
  lemma FramesAddressedIff(path: Path, start: Context, ctx: Context, error: CustomError, result: HandlerResult)
    ensures AddressedTo(Rejection(path, start, ctx, error), path, start) <==> Unharmed(path, start, ctx, Rejected)
    ensures AddressedTo(Malformed(path, ctx), path, start) <==> Unharmed(path, start, ctx, Handled)
    ensures AddressedTo(TimedOut(path, start), path, start)
    ensures Answer(path, ctx, result).None? <==> result.NoResponse?
    ensures Answer(path, ctx, result).Some? ==>
      (AddressedTo(Answer(path, ctx, result).value, path, start) <==> Unharmed(path, start, ctx, Handled))
  {
    if path.Rpc? {
      var id := Some(path.id);
      ResultFrameIsResponse(id, ToolFailure(error));
      ErrorFrameIsResponse(id, RpcError(INVALID_PARAMS, "Invalid params", None));
      ErrorFrameIsResponse(id, RpcError(RPC_TIMED_OUT, "request timed out", None));
      ErrorFrameIsResponse(id, RpcError(INTERNAL_ERROR, "Internal error", None));
      match result
      case Success(Some((v, text))) => ResultFrameIsResponse(id, ToolSuccess(v, text));
      case Public(e) => ResultFrameIsResponse(id, ToolFailure(e));
      case Success(None) =>
      case Internal =>
      case NoResponse =>
    }
    hide IsResponse, ResultFrame, ErrorFrame, ToolSuccess, ToolFailure;
  }

  lemma NextKeepsInv(c: Config, path: Path, start: Context, s: State, a: Action)
    requires Inv(path, start, s) && Enabled(c, s, a)
    ensures Inv(path, start, Next(c, path, start, s, a))
  {
    FramesAddressedIff(path, start, if a.HookRejects? then a.ctx else s.ctx,
                       if a.HookRejects? then a.error else CustomError(0, "", Null), if a.HandlerEnds? then a.result else NoResponse);
    hide AddressedTo, Rejection, Malformed, TimedOut, Answer, Unharmed;
  }

  lemma {:induction false} RunInv(c: Config, path: Path, start: Context, run: seq<State>, actions: seq<Action>, i: nat)
    requires IsRun(c, path, start, run, actions) && i < |run|
    ensures Inv(path, start, run[i])
  {
    if i > 0 {
      RunInv(c, path, start, run, actions, i - 1);
      NextKeepsInv(c, path, start, run[i - 1], actions[i - 1]);
      hide Next, Inv;
    }
  }

  // Over every placement of suspensions and of the deadline, whatever the hooks do to the context:
  // never more than one reply, and exactly one once the request is finished, unless the handler
  // itself asked for none. The reply is addressed to its own request exactly when it is safe from
  // what the hooks have made of the context.
  lemma ExactlyOneReply(c: Config, path: Path, start: Context, run: seq<State>, actions: seq<Action>, i: nat)
    requires IsRun(c, path, start, run, actions) && i < |run|
    ensures |run[i].replies| <= 1
    ensures run[i].pc.Finished? ==> |run[i].replies| == (if run[i].silent then 0 else 1)
    ensures run[i].silent <==> HandlerEnds(NoResponse) in actions[..i]
    ensures forall r :: r in run[i].replies ==> (AddressedTo(r, path, start) <==> Unharmed(path, start, run[i].ctx, run[i].cause))
  {
    RunInv(c, path, start, run, actions, i);
    SilentIff(c, path, start, run, actions, i);
  }

  lemma {:induction false} SilentIff(c: Config, path: Path, start: Context, run: seq<State>, actions: seq<Action>, i: nat)
    requires IsRun(c, path, start, run, actions) && i < |run|
    ensures run[i].silent <==> HandlerEnds(NoResponse) in actions[..i]
  {
    if i > 0 {
      SilentIff(c, path, start, run, actions, i - 1);
      RunInv(c, path, start, run, actions, i - 1);
      var a := actions[i - 1];
      assert actions[..i] == actions[..i - 1] + [a];
      if a.HandlerEnds? {
        FramesAddressedIff(path, start, run[i - 1].ctx, CustomError(0, "", Null), a.result);
      }
      hide AddressedTo, Rejection, Malformed, TimedOut, Answer, Unharmed;
    }
  }

  // The same of requests that never became a task: whatever the door and the run decide, a request
  // has one reply in the end, or none if its handler asked for that. The door's own replies are
  // addressed to the request always.
  function Replies(path: Path, start: Context, d: Door, end: State): seq<Reply> {
    var refusal := Admit(path, start, d);
    if refusal.Some? then [refusal.value] else end.replies
  }

  lemma EveryRequestIsAnswered(c: Config, path: Path, start: Context, d: Door, run: seq<State>, actions: seq<Action>, i: nat)
    requires IsRun(c, path, start, run, actions) && i < |run| && run[i].pc.Finished?
    ensures var refused, end := Admit(path, start, d).Some?, run[i];
      && |Replies(path, start, d, end)| == (if !refused && HandlerEnds(NoResponse) in actions[..i] then 0 else 1)
      && forall r :: r in Replies(path, start, d, end) ==>
           (AddressedTo(r, path, start) <==> refused || Unharmed(path, start, end.ctx, end.cause))
  {
    ExactlyOneReply(c, path, start, run, actions, i);
    RefusedAtTheDoor(path, start, d);
    hide IsRun, AddressedTo, Admit, Unharmed;
  }

  // No reply can be taken for another request's: one that is addressed to two requests has them on
  // one connection and one protocol, under one id, or one method and sequence number.
  lemma RepliesAreTold(r: Reply, path: Path, start: Context, path': Path, start': Context)
    requires AddressedTo(r, path, start) && AddressedTo(r, path', start')
    ensures path == path' && start.connection == start'.connection
    ensures path.Legacy? ==> start == start'
  {
    if path.Rpc? && path'.Rpc? {
      IdsAreTold(Some(path.id), Some(path'.id));
    }
  }

  // Hooks that leave the addressing part of the context alone.
  predicate Leaves(a: Action, start: Context) {
    a.HookPasses? || a.HookRejects? ==> a.ctx == start
  }

  lemma {:induction false} LeavingHooksDoNoHarm(c: Config, path: Path, start: Context, run: seq<State>, actions: seq<Action>, i: nat)
    requires IsRun(c, path, start, run, actions) && i < |run|
    requires forall a :: a in actions ==> Leaves(a, start)
    ensures run[i].ctx == start && forall r :: r in run[i].replies ==> AddressedTo(r, path, start)
  {
    RunInv(c, path, start, run, actions, i);
    if i > 0 {
      LeavingHooksDoNoHarm(c, path, start, run, actions, i - 1);
      assert Leaves(actions[i - 1], start);
      hide AddressedTo, Rejection, Malformed, TimedOut, Answer;
    }
  }

  // The request finishes: every step that is not the deadline leaves fewer awaits ahead.
  function AwaitsLeft(c: Config, pc: Pc): nat {
    match pc
    case Before(i) => (if i < c.before then c.before - i else 0) + 1 + c.after
    case Handling => 1 + c.after
    case After(i) => if i < c.after then c.after - i else 0
    case Finished => 0
  }

  ghost predicate Placed(c: Config, pc: Pc) {
    (pc.Before? ==> pc.hook < c.before) && (pc.After? ==> pc.hook < c.after)
  }

  lemma {:induction false} RunIsShort(c: Config, path: Path, start: Context, run: seq<State>, actions: seq<Action>, i: nat)
    requires IsRun(c, path, start, run, actions) && i < |run|
    ensures Placed(c, run[i].pc)
    ensures i + AwaitsLeft(c, run[i].pc) <= c.before + 1 + c.after
    ensures !run[i].pc.Finished? ==> AwaitsLeft(c, run[i].pc) > 0
  {
    if i > 0 {
      RunIsShort(c, path, start, run, actions, i - 1);
      StepAhead(c, path, start, run[i - 1], actions[i - 1]);
      hide Next, Placed, AwaitsLeft;
    }
  }

  lemma StepAhead(c: Config, path: Path, start: Context, s: State, a: Action)
    requires Enabled(c, s, a) && Placed(c, s.pc)
    ensures var s' := Next(c, path, start, s, a);
            && Placed(c, s'.pc)
            && AwaitsLeft(c, s'.pc) < AwaitsLeft(c, s.pc)
            && (!s'.pc.Finished? ==> AwaitsLeft(c, s'.pc) > 0)
  {
    hide Rejection, Malformed, TimedOut, Answer;
  }

  // The two protocols tell the same story about what a handler did: silence for silence, the same
  // value for a success, the same application code for a public error, and an internal error for
  // an internal error or a value that does not serialize.
  lemma ProtocolsAgree(ctx: Context, id: RpcId, r: HandlerResult)
    ensures var legacy, rpc := Answer(Legacy, ctx, r), Answer(Rpc(id), ctx, r);
      && (legacy.None? <==> rpc.None?)
      && (legacy.Some? ==> legacy.value.connection == rpc.value.connection)
      && (legacy.Some? && legacy.value.frame.Immediate? <==> rpc.Some? && Succeeds(rpc.value.frame))
      && (legacy.Some? && legacy.value.frame.Immediate? ==> StructuredContent(rpc.value.frame) == Some(legacy.value.frame.params))
      && (r.Public? ==> legacy.value.frame.code == r.error.code && AppCode(rpc.value.frame) == Some(Int(r.error.code)))
      && (r.Internal? || r == Success(None) ==>
            legacy.value.frame.code == APP_INTERNAL_ERROR && RpcCode(rpc.value.frame) == Some(Int(INTERNAL_ERROR)))
  {
    match r
    case Success(Some((v, text))) =>
      ResultFrameIsResponse(Some(id), ToolSuccess(v, text));
    case Success(None) =>
      ErrorFrameIsResponse(Some(id), RpcError(INTERNAL_ERROR, "Internal error", None));
    case Public(e) =>
      ResultFrameIsResponse(Some(id), ToolFailure(e));
    case Internal =>
      ErrorFrameIsResponse(Some(id), RpcError(INTERNAL_ERROR, "Internal error", None));
    case NoResponse =>
  }

  function Member(v: Option<Value>, key: string): Option<Value> {
    if v.Some? && v.value.Obj? && key in v.value.members then Some(v.value.members[key]) else None
  }

  function ResultOf(f: Frame): Option<Value> {
    if f.RpcFrame? then Member(Some(f.frame), "result") else None
  }

  // A tool result that is not flagged as an error.
  predicate Succeeds(f: Frame) {
    Member(ResultOf(f), "isError") == Some(Bool(false))
  }

  function StructuredContent(f: Frame): Option<Value> {
    Member(ResultOf(f), "structuredContent")
  }

  function AppCode(f: Frame): Option<Value> {
    Member(Member(StructuredContent(f), "error"), "appCode")
  }

  function RpcCode(f: Frame): Option<Value> {
    if f.RpcFrame? then Member(Member(Some(f.frame), "error"), "code") else None
  }
}
