/**
 * The add-in's concurrency gate: a counter, a queue of waiting calls, and a slot that is
 * handed from a finished call straight to the first one waiting.
 */
module AddinSlots {
  import opened Collections
  import opened Wrappers

  const MAX_INFLIGHT := 5

  // ---------------------------------------------------------------------
  // Histories of calls
  // ---------------------------------------------------------------------

  /** Calls in the order they asked, were let in, and left. */
  datatype History = History(asked: seq<nat>, granted: seq<nat>, left: seq<nat>)

  datatype Op = Ask(call: nat) | Leave(call: nat)

  /** A call asks once, and leaves once, after it was let in. */
  predicate Legal(h: History, op: Op)
  {
    match op
    case Ask(c) => c !in h.asked
    case Leave(c) => c in h.granted && c !in h.left
  }

  function InFlight(h: History): int
  {
    |h.granted| - |h.left|
  }

  function Waiting(h: History): seq<nat>
    requires |h.granted| <= |h.asked|
  {
    h.asked[|h.granted|..]
  }

  /** First come, first served: whoever is next is let in as soon as there is room. */
  function Serve(h: History, op: Op): History
    requires |h.granted| <= |h.asked|
  {
    match op
    case Ask(c) =>
      History(h.asked + [c], if InFlight(h) < MAX_INFLIGHT then h.granted + [c] else h.granted, h.left)
    case Leave(c) =>
      History(h.asked, if Waiting(h) != [] then h.granted + [Waiting(h)[0]] else h.granted, h.left + [c])
  }

  function Holders(h: History): set<nat>
  {
    set c | c in h.granted && c !in h.left
  }

  ghost predicate Fair(h: History)
  {
    && |h.granted| <= |h.asked| && h.granted == h.asked[..|h.granted|]
    && Distinct(h.asked) && Distinct(h.left)
    && (forall c | c in h.left :: c in h.granted)
    && |Holders(h)| == InFlight(h) <= MAX_INFLIGHT
    && (Waiting(h) != [] ==> InFlight(h) == MAX_INFLIGHT)
  }

  lemma AskWithRoom(h: History, c: nat)
    requires Fair(h) && Legal(h, Ask(c)) && InFlight(h) < MAX_INFLIGHT
    ensures Fair(Serve(h, Ask(c)))
  {
    var h' := Serve(h, Ask(c));
    assert h.granted == h.asked by { assert Waiting(h) == []; }
    assert h'.granted == h'.asked == h'.asked[..|h'.granted|];
    assert c !in h.granted;
    assert Holders(h') == Holders(h) + {c};
  }

  lemma AskWaits(h: History, c: nat)
    requires Fair(h) && Legal(h, Ask(c)) && InFlight(h) >= MAX_INFLIGHT
    ensures Fair(Serve(h, Ask(c)))
  {
    var h' := Serve(h, Ask(c));
    assert h'.granted == h'.asked[..|h'.granted|];
    assert Holders(h') == Holders(h);
  }

  lemma AskIsFair(h: History, c: nat)
    requires Fair(h) && Legal(h, Ask(c))
    ensures Fair(Serve(h, Ask(c)))
  {
    if InFlight(h) < MAX_INFLIGHT {
      AskWithRoom(h, c);
    } else {
      AskWaits(h, c);
    }
  }

  lemma LeaveHandsOver(h: History, c: nat)
    requires Fair(h) && Legal(h, Leave(c)) && Waiting(h) != []
    ensures Fair(Serve(h, Leave(c)))
  {
    var h', next := Serve(h, Leave(c)), Waiting(h)[0];
    assert next == h.asked[|h.granted|] && next !in h.granted;
    assert h'.granted == h.asked[..|h.granted| + 1];
    assert Holders(h') == Holders(h) - {c} + {next};
  }

  lemma LeaveFreesSlot(h: History, c: nat)
    requires Fair(h) && Legal(h, Leave(c)) && Waiting(h) == []
    ensures Fair(Serve(h, Leave(c)))
  {
    assert Holders(Serve(h, Leave(c))) == Holders(h) - {c};
  }

  lemma LeaveIsFair(h: History, c: nat)
    requires Fair(h) && Legal(h, Leave(c))
    ensures Fair(Serve(h, Leave(c)))
  {
    if Waiting(h) != [] {
      LeaveHandsOver(h, c);
    } else {
      LeaveFreesSlot(h, c);
    }
  }

  ghost predicate IsHistory(ops: seq<Op>, h: History)
    decreases |ops|
  {
    if ops == [] then h == History([], [], [])
    else
      exists before :: IsHistory(ops[..|ops| - 1], before) && |before.granted| <= |before.asked|
        && Legal(before, ops[|ops| - 1]) && h == Serve(before, ops[|ops| - 1])
  }

  /**
   * After any sequence of calls: as many are in flight as hold a slot, never more than the
   * maximum; calls were let in in the order they asked; nobody waits while there is room;
   * and no call has left twice.
   */
  lemma {:induction false} GateIsFair(ops: seq<Op>, h: History)
    requires IsHistory(ops, h)
    ensures Fair(h)
    ensures |Holders(h)| <= 5 && (Waiting(h) != [] ==> |Holders(h)| == 5)
    decreases |ops|
  {
    if ops != [] {
      var op := ops[|ops| - 1];
      var before :| IsHistory(ops[..|ops| - 1], before) && |before.granted| <= |before.asked|
        && Legal(before, op) && h == Serve(before, op);
      GateIsFair(ops[..|ops| - 1], before);
      if op.Ask? {
        AskIsFair(before, op.call);
      } else {
        LeaveIsFair(before, op.call);
      }
    }
  }

  // ---------------------------------------------------------------------
  // The gate itself
  // ---------------------------------------------------------------------

  /** What a request came back with. */
  datatype Body = NotJson | RpcError | ToolError | NoContent | Content(value: int)

  datatype Reply = Unreachable | Http(status: int, body: Body)

  datatype Refresh = Refreshed | NotRefreshed | RefreshFailed

  datatype CallError = CannotReach | SessionExpired | HttpError(status: int) | BadReply | ServerError

  predicate IsOk(status: int)
  {
    200 <= status < 300
  }

  /** The reply that counts: the retry's, when an expired token could be refreshed. */
  function FinalReply(first: Reply, refresh: Refresh, second: Reply): Reply
  {
    if first.Http? && first.status == 401 then
      match refresh
      case Refreshed => second
      case NotRefreshed => first
      case RefreshFailed => Unreachable
    else first
  }

  class SlotGate {
    var inflight: int
    var waiters: seq<nat>
    var connected: bool
    ghost var history: History

    ghost predicate Valid()
      reads this
    {
      Fair(history) && inflight == InFlight(history) && waiters == Waiting(history)
    }

    constructor ()
      ensures Valid() && history == History([], [], []) && connected
    {
      inflight, waiters, connected := 0, [], true;
      history := History([], [], []);
    }

    /** Asks for a slot: had at once, or waited for in turn. */
    method AcquireSlot(call: nat) returns (now: bool)
      requires Valid() && call !in history.asked
      modifies this
      ensures Valid() && history == Serve(old(history), Ask(call)) && connected == old(connected)
      ensures now <==> call in history.granted
    {
      AskIsFair(history, call);
      ghost var after := Serve(history, Ask(call));
      if inflight < MAX_INFLIGHT {
        assert Waiting(after) == [];
        inflight := inflight + 1;
        now := true;
      } else {
        assert Waiting(after) == Waiting(history) + [call];
        waiters := waiters + [call];
        now := false;
      }
      history := after;
    }

    /** Gives the slot to the first waiter, or back. */
    method ReleaseSlot(ghost call: nat)
      requires Valid() && call in history.granted && call !in history.left
      modifies this
      ensures Valid() && history == Serve(old(history), Leave(call)) && connected == old(connected)
    {
      LeaveIsFair(history, call);
      ghost var after := Serve(history, Leave(call));
      if waiters != [] {
        assert Waiting(after) == waiters[1..];
        waiters := waiters[1..];
      } else {
        inflight := inflight - 1;
      }
      history := after;
    }

    /**
     * The bracketed part of a tool call, once it has its slot.  It succeeds exactly when the
     * reply that counts carries content, and on every path it leaves, once.
     */
    method FinishCall(ghost call: nat, first: Reply, refresh: Refresh, second: Reply)
      returns (r: Result<int, CallError>)
      requires Valid() && call in history.granted && call !in history.left
      modifies this
      ensures Valid() && history == Serve(old(history), Leave(call))
      ensures
        var reply := FinalReply(first, refresh, second);
        && (forall v :: r == Ok(v) <==> reply.Http? && 200 <= reply.status < 300 && reply.body == Content(v))
        && (forall n :: r == Err(HttpError(n)) <==>
          reply.Http? && reply.status == n && n != 401 && !(200 <= n < 300))
        && (r == Err(SessionExpired) <==> reply.Http? && reply.status == 401)
        && (r == Err(SessionExpired) ==> first.Http? && first.status == 401 && !refresh.RefreshFailed?)
        && (r == Err(CannotReach) <==> reply.Unreachable?)
        && (r == Err(ServerError) <==> reply.Http? && 200 <= reply.status < 300 && reply.body in {RpcError, ToolError})
        && (connected <==> old(connected) && r != Err(SessionExpired))
    {
      r := Post(first, refresh, second);
      if r == Err(SessionExpired) {
        connected := false;
      }
      ReleaseSlot(call);
    }

    method Post(first: Reply, refresh: Refresh, second: Reply) returns (r: Result<int, CallError>)
      ensures
        var reply := FinalReply(first, refresh, second);
        && (forall v :: r == Ok(v) <==> reply.Http? && 200 <= reply.status < 300 && reply.body == Content(v))
        && (forall n :: r == Err(HttpError(n)) <==>
          reply.Http? && reply.status == n && n != 401 && !(200 <= n < 300))
        && (r == Err(SessionExpired) <==> reply.Http? && reply.status == 401)
        && (r == Err(SessionExpired) ==> first.Http? && first.status == 401 && !refresh.RefreshFailed?)
        && (r == Err(CannotReach) <==> reply.Unreachable?)
        && (r == Err(ServerError) <==> reply.Http? && 200 <= reply.status < 300 && reply.body in {RpcError, ToolError})
    {
      var res := first;
      if res.Http? && res.status == 401 {
        if refresh.RefreshFailed? {
          return Err(CannotReach);
        }
        if refresh.Refreshed? {
          res := second;
        }
      }
      if res.Unreachable? {
        return Err(CannotReach);
      }
      if res.status == 401 {
        return Err(SessionExpired);
      }
      if !IsOk(res.status) {
        return Err(HttpError(res.status));
      }
      match res.body
      case NotJson => return Err(BadReply);
      case RpcError | ToolError => return Err(ServerError);
      case NoContent => return Err(BadReply);
      case Content(v) => return Ok(v);
    }
  }
}
