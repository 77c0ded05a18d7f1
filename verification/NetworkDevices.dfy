/**
 The interfaces and devices of the network with their queues in place: every method is one step
 of one thread, and does to its object what Network.Moved does to the model of it.
 */
module NetworkDevices {
  import opened Channels
  import opened Network
  import opened RingFifo

  // A queue of the network in its own footprint.
  ghost predicate Queue(q: Fifo<Msg>)
    reads q
  {
    q.Valid() && q.data.Length == DEPTH + 1
  }

  class MasterInterface {
    const requests: Fifo<Msg>
    const responses: Fifo<Msg>
    // The request that dispatch_requests_thread has read and not yet handed over.
    var hand: seq<Msg>

    ghost predicate Valid()
      reads this, requests, responses
    {
      Queue(requests) && Queue(responses) && requests != responses && requests.data != responses.data
    }

    ghost function Model(sending: seq<Msg>): Master
      requires Valid()
      reads this, requests, responses, requests.data, responses.data
    {
      Master(sending, requests.Contents(), hand, responses.Contents())
    }

    constructor ()
      ensures Valid() && Model([]) == Master([], [], [], [])
      ensures fresh(requests) && fresh(responses) && fresh(requests.data) && fresh(responses.data)
    {
      requests := new Fifo<Msg>(DEPTH);
      responses := new Fifo<Msg>(DEPTH);
      hand := [];
    }

    // put, once there is room.
    method Put(m: Msg)
      requires Valid() && |requests.Contents()| < DEPTH
      modifies requests, requests.data
      ensures Valid() && Model([]) == old(Model([m])).(sending := [], requests := old(requests.Contents()) + [m])
    {
      requests.Write(m);
    }

    // The first half of dispatch_requests_thread.
    method FetchRequest()
      requires Valid() && hand == [] && requests.Contents() != []
      modifies this`hand, requests
      ensures Valid() && |hand| == 1 && old(requests.Contents()) == hand + requests.Contents()
      ensures responses.Contents() == old(responses.Contents())
    {
      var req := requests.Read();
      hand := [req];
    }

    // add_response, once there is room.
    method AddResponse(m: Msg)
      requires Valid() && |responses.Contents()| < DEPTH
      modifies responses, responses.data
      ensures Valid() && responses.Contents() == old(responses.Contents()) + [m]
      ensures hand == old(hand) && requests.Contents() == old(requests.Contents())
    {
      responses.Write(m);
    }

    // get, once there is a response.
    method Get() returns (m: Msg)
      requires Valid() && responses.Contents() != []
      modifies responses
      ensures Valid() && old(responses.Contents()) == [m] + responses.Contents()
      ensures hand == old(hand) && requests.Contents() == old(requests.Contents())
    {
      m := responses.Read();
    }
  }

  class SlaveInterface {
    const kind: Kind
    const requests: Fifo<Msg>
    const responses: Fifo<Msg>
    // m_req of request_thread while it is being processed, the flag, and the response that
    // dispatch_responses_thread has read.
    var work: seq<Msg>
    var processing: bool
    var hand: seq<Msg>
    var mem: Mem

    ghost predicate Valid()
      reads this, requests, responses
    {
      Queue(requests) && Queue(responses) && requests != responses && requests.data != responses.data
    }

    ghost function Model(): Slave
      requires Valid()
      reads this, requests, responses, requests.data, responses.data
    {
      Slave(requests.Contents(), work, processing, responses.Contents(), hand, mem)
    }

    constructor (k: Kind)
      ensures Valid() && kind == k && Model() == Slave([], [], false, [], [], map[])
      ensures fresh(requests) && fresh(responses) && fresh(requests.data) && fresh(responses.data)
    {
      kind := k;
      requests := new Fifo<Msg>(DEPTH);
      responses := new Fifo<Msg>(DEPTH);
      work := [];
      processing := false;
      hand := [];
      mem := map[];
    }

    // add_request, once there is room.
    method AddRequest(m: Msg)
      requires Valid() && |requests.Contents()| < DEPTH
      modifies requests, requests.data
      ensures Valid() && Model() == old(Model()).(requests := old(requests.Contents()) + [m])
    {
      requests.Write(m);
    }

    // request_thread, up to the device; a request that finds the flag set is dropped.
    method Accept()
      requires Valid() && work == [] && requests.Contents() != []
      modifies this`work, this`processing, requests
      ensures Valid() && Model() == old(Model()).(requests := old(requests.Contents())[1..], processing := true,
        work := if old(processing) then [] else [old(requests.Contents())[0]])
    {
      var req := requests.Read();
      if processing {
        return;
      }
      processing := true;
      work := [req];
    }

    // read and write of the device.
    method Perform()
      requires Valid() && work != [] && !work[0].served
      modifies this`work, this`mem
      ensures Valid()
      ensures var (m, v) := Access(kind, old(mem), old(work[0].req));
        Model() == old(Model()).(work := [Msg(old(work[0].req), true, v)], mem := m)
    {
      var r := work[0].req;
      var val := Load(mem, r.offset);
      var rdata := 0;
      if r.write {
        var newval := r.data;
        if kind == Semaphore && newval == 1 && (val == 1 || val == 2) {
          newval := 2;
        }
        mem := mem[r.offset := newval];
      } else if kind == Memory {
        rdata := val;
      } else {
        rdata := if val == 2 then 1 else val;
        if val == 0 {
          mem := mem[r.offset := 1];
        }
      }
      work := [Msg(r, true, rdata)];
    }

    // send_rsp, once there is room.
    method SendRsp()
      requires Valid() && |work| == 1 && |responses.Contents()| < DEPTH
      modifies this`work, this`processing, responses, responses.data
      ensures Valid() && Model() == old(Model()).(work := [], processing := false,
        responses := old(responses.Contents()) + old(work))
    {
      responses.Write(work[0]);
      processing := false;
      work := [];
    }

    // The first half of dispatch_responses_thread.
    method FetchResponse()
      requires Valid() && hand == [] && responses.Contents() != []
      modifies this`hand, responses
      ensures Valid() && |hand| == 1 && old(responses.Contents()) == hand + responses.Contents()
      ensures requests.Contents() == old(requests.Contents())
    {
      var rsp := responses.Read();
      hand := [rsp];
    }
  }

  // The second halves of the dispatchers, between two interfaces.
  method DispatchRequest(cfg: Config, c: nat, m: MasterInterface, s: SlaveInterface)
    requires m.Valid() && s.Valid() && c < |cfg.maps| && |m.hand| == 1
    requires Route(cfg, c, m.hand[0]).Some? && |s.requests.Contents()| < DEPTH
    requires {m.requests, m.responses} !! {s.requests, s.responses}
    requires {m.requests.data, m.responses.data} !! {s.requests.data, s.responses.data}
    modifies m`hand, s.requests, s.requests.data
    ensures m.Valid() && s.Valid() && m.Model([]) == old(m.Model([])).(hand := [])
    ensures s.Model() == old(s.Model()).(requests := old(s.requests.Contents()) + [Route(cfg, c, old(m.hand[0])).value])
  {
    var x := Route(cfg, c, m.hand[0]).value;
    m.hand := [];
    s.AddRequest(x);
  }

  method DispatchResponse(s: SlaveInterface, m: MasterInterface)
    requires m.Valid() && s.Valid() && |s.hand| == 1 && |m.responses.Contents()| < DEPTH
    requires {m.requests, m.responses} !! {s.requests, s.responses}
    requires {m.requests.data, m.responses.data} !! {s.requests.data, s.responses.data}
    modifies s`hand, m.responses, m.responses.data
    ensures m.Valid() && s.Valid() && s.Model() == old(s.Model()).(hand := [])
    ensures m.Model([]) == old(m.Model([])).(responses := old(m.responses.Contents()) + old(s.hand))
  {
    var x := s.hand[0];
    s.hand := [];
    m.AddResponse(x);
  }
}
