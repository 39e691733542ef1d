/** The control server's command queues as it keeps them, updated in place by the
    poll and ACK handlers of src/control/server.cpp, and the client's loop that
    sends the ACKs, src/control/client.cpp. */
module CommandServerImpl {
  import opened Base
  import opened Commands

  lemma MarkIs(p: Pending, now: nat)
    ensures Mark(p, now) == if Due(p, now) then p.(deliveredAt := now) else p
  {
  }

  lemma SweepStep(q: seq<Pending>, now: nat, i: nat)
    requires i < |q|
    ensures DueOf(q[..i + 1], now) == DueOf(q[..i], now) + if Due(q[i], now) then [q[i].cmd] else []
  {
    assert q[..i + 1][..i] == q[..i];
    hide Due;
  }

  /** The poll handler's loop over one queue: stamps the due commands and collects
      them. */
  method Sweep(q: seq<Pending>, now: nat) returns (r: seq<Pending>, commands: seq<Command>)
    ensures r == MarkAll(q, now) && commands == DueOf(q, now)
  {
    r, commands := q, [];
    assert DueOf(q[..0], now) == [];
    hide Due, DueOf, Mark;
    for i := 0 to |q|
      invariant |r| == |q|
      invariant forall j :: 0 <= j < |q| ==> r[j] == if j < i then Mark(q[j], now) else q[j]
      invariant commands == DueOf(q[..i], now)
    {
      SweepStep(q, now, i);
      MarkIs(q[i], now);
      if Due(r[i], now) {
        commands := commands + [r[i].cmd];
        r := r[i := r[i].(deliveredAt := now)];
      }
    }
    assert q[..|q|] == q;
    assert r == MarkAll(q, now);
  }

  class CommandServer {
    var nodes: set<Id>
    var pending: map<Id, seq<Pending>>

    ghost function Abs(): Server
      reads this
    {
      Server(nodes, pending)
    }

    constructor ()
      ensures Abs() == Server({}, map[])
    {
      nodes, pending := {}, map[];
    }

    method HandlePoll(node: Id, now: nat) returns (reply: Reply)
      modifies this`pending
      ensures Abs() == Poll(old(Abs()), node, now)
      ensures reply == PollReply(old(Abs()), node, now)
    {
      if node == "" {
        return BadRequest;
      }
      if node !in nodes {
        return NotFound;
      }
      if node !in pending {
        return Batch([]);
      }
      var queue, commands := Sweep(pending[node], now);
      pending := pending[node := queue];
      reply := Batch(commands);
    }

    method HandleAck(node: Id, id: Id) returns (accepted: bool)
      modifies this`pending
      ensures Abs() == Ack(old(Abs()), node, id)
      ensures accepted <==> node != "" && id != ""
    {
      if node == "" || id == "" {
        return false;
      }
      if node in pending {
        var q := pending[node];
        var kept: seq<Pending> := [];
        for i := 0 to |q|
          invariant kept == Without(q[..i], id)
        {
          assert q[..i + 1][..i] == q[..i];
          if q[i].cmd.id != id {
            kept := kept + [q[i]];
          }
        }
        assert q[..|q|] == q;
        if kept == [] {
          pending := pending - {node};
        } else {
          pending := pending[node := kept];
        }
      }
      return true;
    }
  }

  /** The client's loop over a processed batch: one ACK per nonempty id. */
  method SendAcks(batch: seq<Command>) returns (sent: seq<Id>)
    ensures sent == AcksFor(batch)
  {
    sent := [];
    for i := 0 to |batch|
      invariant sent == AcksFor(batch[..i])
    {
      assert batch[..i + 1][..i] == batch[..i];
      if batch[i].id != "" {
        sent := sent + [batch[i].id];
      }
    }
    assert batch[..|batch|] == batch;
  }
}
