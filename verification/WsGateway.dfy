/** The gateway object itself (api/agent.go): its critical sections change two
    maps and one-slot channels in place. Each is proved to be the protocol step
    of the same name; what the interleavings keep is proved on the protocol. */
module WsGateway {
  import opened Wrappers
  import P = ApprovalProtocol

  /** A channel of capacity one. */
  class Channel {
    var slot: Option<P.Response>

    constructor ()
      ensures slot == None
    {
      slot := None;
    }
  }

  class Gateway {
    var pending: map<string, Channel>
    var early: map<string, P.Response>

    constructor ()
      ensures Valid() && pending == map[] && early == map[]
    {
      pending, early := map[], map[];
    }

    /** Requests do not share channels. */
    ghost predicate Valid()
      reads this
    {
      forall a, b :: a in pending && b in pending && a != b ==> pending[a] != pending[b]
    }

    ghost function Slots(): P.Channels
      reads this, pending.Values
    {
      map id | id in pending :: pending[id].slot
    }

    /** The gateway's part of the protocol state. */
    ghost function State(requests: P.Phases, closed: set<string>): P.State
      reads this, pending.Values
    {
      P.State(early, Slots(), requests, closed, None)
    }

    /** RequestApproval up to its select: an early answer is returned at once,
        otherwise a channel is registered, in place of any the id had. */
    method Register(id: string, ghost requests: P.Phases, ghost closed: set<string>)
        returns (now: Option<P.Response>, ch: Channel?)
      requires Valid()
      modifies this
      ensures Valid()
      ensures id in old(early) ==> now == Some(old(early)[id]) && ch == null
      ensures id !in old(early) ==> now == None && ch != null && fresh(ch) && id in pending && pending[id] == ch
      ensures var t := P.RegisterStep(old(State(requests, closed)), id);
              && State(t.requests, t.closed) == t
              && t.requests[id] == if now.Some? then P.Returned(now.value) else P.Waiting
    {
      if id in early {
        now, ch := Some(early[id]), null;
        early := early - {id};
        assert Slots() == old(Slots());
        return;
      }
      now := None;
      ch := new Channel();
      assert forall k :: k in pending ==> pending[k] != ch;
      pending := pending[id := ch];
      assert Slots() == old(Slots())[id := None];
    }

    /** submit. The verdict Blocks is a send on a full channel: Go would wait
        there with the mutex held, and nothing has changed yet. */
    method Submit(r: P.Response, ghost requests: P.Phases, ghost closed: set<string>) returns (verdict: P.Verdict)
      requires Valid()
      modifies `early, pending.Values
      ensures Valid() && verdict == P.SubmitVerdict(old(State(requests, closed)), r)
      ensures State(requests, closed) == P.SubmitStep(old(State(requests, closed)), r).(blocked := None)
    {
      if r.actionID in pending {
        var ch := pending[r.actionID];
        if ch.slot.Some? {
          return P.Blocks;
        }
        ch.slot := Some(r);
        return P.Accepted;
      }
      if |early| >= P.MAX_EARLY_RESPONSES {
        return P.Dropped;
      }
      early := early[r.actionID := r];
      return P.Accepted;
    }

    /** The select taking the answer from the request's channel. */
    method Receive(id: string, ghost requests: P.Phases, ghost closed: set<string>) returns (r: P.Response)
      requires Valid() && id in pending && pending[id].slot.Some?
      requires P.Enabled(State(requests, closed), P.Receive(id))
      modifies pending.Values
      ensures Valid() && Some(r) == old(pending[id].slot)
      ensures var t := P.Next(old(State(requests, closed)), P.Receive(id));
              State(t.requests, t.closed) == t && t.requests[id] == P.Returned(r)
    {
      r := pending[id].slot.value;
      pending[id].slot := None;
    }

    /** The deferred delete. */
    method Close(id: string, ghost requests: P.Phases, ghost closed: set<string>)
      requires Valid() && P.Enabled(State(requests, closed), P.Close(id))
      modifies `pending
      ensures Valid()
      ensures var t := P.Next(old(State(requests, closed)), P.Close(id));
              State(t.requests, t.closed) == t
    {
      pending := pending - {id};
    }
  }
}
