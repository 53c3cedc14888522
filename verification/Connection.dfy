/** A connection to the coordinator, from its first request to its end. */
module Connection {
  import opened Core
  import opened Framing
  import opened CoordinatorServer

  /** The requests are handled one after the other, each answered in the state it finds. */
  ghost predicate Serves(start: Cluster, connection: int, requests: seq<Request>, clock: nat -> int,
                         states: seq<Cluster>, replies: seq<Response>) {
    && |states| == |requests| + 1 && |replies| == |requests| && states[0] == start
    && forall i {:trigger replies[i]} :: 0 <= i < |requests| ==>
         && Next(states[i], Op.Request(connection, requests[i], clock(i)), states[i + 1])
         && Answers(states[i], connection, requests[i], replies[i])
  }

  lemma ServesMore(start: Cluster, connection: int, requests: seq<Request>, clock: nat -> int, states: seq<Cluster>,
                   replies: seq<Response>, request: Request, c: Cluster, reply: Response)
    requires Serves(start, connection, requests, clock, states, replies)
    requires Next(states[|requests|], Op.Request(connection, request, clock(|requests|)), c)
    requires Answers(states[|requests|], connection, request, reply)
    ensures Serves(start, connection, requests + [request], clock, states + [c], replies + [reply])
  {
    hide Next, Answers;
    var requests', states', replies' := requests + [request], states + [c], replies + [reply];
    forall i | 0 <= i < |requests'|
      ensures Next(states'[i], Op.Request(connection, requests'[i], clock(i)), states'[i + 1])
      ensures Answers(states'[i], connection, requests'[i], replies'[i])
    {
      if i < |requests| {
        var known := replies[i];
        assert states'[i] == states[i] && states'[i + 1] == states[i + 1] && requests'[i] == requests[i];
      }
    }
  }

  /** After the handled requests, the stream holds the others that are received, and ends as they end. */
  ghost predicate Leaves(codec: Codec<Request>, stream: Bytes, received: seq<Request>, end: End,
                         handled: seq<Request>) {
    received == handled + ReceivedAll(codec, stream).0 && end == ReceivedAll(codec, stream).1
  }

  lemma NothingHandled(codec: Codec<Request>, stream: Bytes)
    ensures Leaves(codec, stream, ReceivedAll(codec, stream).0, ReceivedAll(codec, stream).1, [])
  {
    hide ReceivedAll;
  }

  /** What receiving once says of the requests that are left. */
  lemma OneReceived(codec: Codec<Request>, stream: Bytes, received: seq<Request>, end: End, handled: seq<Request>)
    requires Leaves(codec, stream, received, end, handled)
    ensures match Received(codec, stream)
            case (Ok(None), _) => received[..|handled|] == received == handled && end == Clean
            case (Err(e), _) => received[..|handled|] == received == handled && end == Failed(e)
            case (Ok(Some(request)), rest) =>
              && Leaves(codec, rest, received, end, handled + [request])
              && |handled| < |received| && received[..|handled| + 1] == handled + [request]
  {
    hide Received;
    match Received(codec, stream) {
      case (Ok(Some(request)), rest) =>
        assert handled + ([request] + ReceivedAll(codec, rest).0) == handled + [request] + ReceivedAll(codec, rest).0;
      case _ =>
    }
  }

  /** The replies are sendable and follow the bytes that were written before them. */
  ghost predicate Written(codec: Codec<Response>, before: Bytes, replies: seq<Response>, bytes: Bytes) {
    Sendable(codec, replies) && bytes == before + Frames(codec, replies)
  }

  /** How the loop ends: with the stream, or because a reply could not be sent. */
  datatype Ending = StreamEnded(end: End) | ReplyFailed

  /**
    Serves a connection while no one else is served. The i-th request is handled at time clock(i); its reply is
    written unless the peer has gone by then. A connection whose stream ends is closed, and its node forgotten; one
    whose reply fails is abandoned, and its node stays registered.
   */
  method HandleConnection(server: Server, transport: FramedTransport, requests: Codec<Request>,
                          responses: Codec<Response>, connection: int, clock: nat -> int, gone: nat -> bool)
    returns (ending: Ending, ghost states: seq<Cluster>, ghost replies: seq<Response>)
    requires server.Valid()
    modifies server, server.registry, server.cacheIndex, server.leaseStore, server.queue, transport
    ensures server.Valid()
    ensures var (received, end) := ReceivedAll(requests, old(transport.incoming));
            && |replies| <= |received|
            && Serves(old(server.View()), connection, received[..|replies|], clock, states, replies)
            && match ending
               case StreamEnded(e) =>
                 && e == end && |replies| == |received| && (forall i :: 0 <= i < |replies| ==> !gone(i))
                 && Next(states[|replies|], Close(connection), server.View())
                 && Written(responses, old(transport.outgoing), replies, transport.outgoing)
               case ReplyFailed =>
                 && replies != [] && (forall i :: 0 <= i < |replies| - 1 ==> !gone(i))
                 && Next(states[|replies|], Abandon(connection), server.View())
                 && Written(responses, old(transport.outgoing), replies[..|replies| - 1], transport.outgoing)
                 && (gone(|replies| - 1) || Frame(responses, replies[|replies| - 1]).Err?)
  {
    hide Serves, Frame, Received, ReceivedAll, Next, Answers, Leaves, Written;
    ghost var (received, end) := ReceivedAll(requests, transport.incoming);
    ghost var start := server.View();
    ghost var handled: seq<Request> := [];
    var count := 0;
    states, replies := [start], [];
    ServesNothing(start, connection, clock);
    NothingWritten(responses, transport.outgoing);
    NothingHandled(requests, transport.incoming);
    while true
      invariant server.Valid() && count == |handled| == |replies| && |states| == |handled| + 1
      invariant forall i :: 0 <= i < count ==> !gone(i)
      invariant states[|handled|] == server.View()
      invariant Serves(start, connection, handled, clock, states, replies)
      invariant Leaves(requests, transport.incoming, received, end, handled)
      invariant Written(responses, old(transport.outgoing), replies, transport.outgoing)
      decreases |transport.incoming|
    {
      OneReceived(requests, transport.incoming, received, end, handled);
      var r := transport.RecvMessage(requests);
      if r.Err? || r.value.None? {
        server.CloseConnection(connection);
        return StreamEnded(if r.Err? then Failed(r.error) else Clean), states, replies;
      }
      var reply := server.HandleRequest(connection, r.value.value, clock(count));
      ServesMore(start, connection, handled, clock, states, replies, r.value.value, server.View(), reply);
      ghost var sent, bytes := replies, transport.outgoing;
      handled, states, replies := handled + [r.value.value], states + [server.View()], replies + [reply];
      assert replies[..|replies| - 1] == sent;
      var failed := gone(count);
      if !failed {
        var written := transport.SendMessage(responses, reply);
        failed := written.Err?;
      }
      if failed {
        server.AbandonConnection(connection);
        return ReplyFailed, states, replies;
      }
      OneMoreWritten(responses, old(transport.outgoing), sent, bytes, reply);
      count := count + 1;
    }
  }

  lemma OneMoreWritten(codec: Codec<Response>, before: Bytes, sent: seq<Response>, bytes: Bytes, reply: Response)
    requires Written(codec, before, sent, bytes) && Frame(codec, reply).Ok?
    ensures Written(codec, before, sent + [reply], bytes + Frame(codec, reply).value)
  {
    OneMoreFrame(codec, sent, reply);
    hide Frames, Frame;
  }

  lemma ServesNothing(start: Cluster, connection: int, clock: nat -> int)
    ensures Serves(start, connection, [], clock, [start], [])
  {
  }

  lemma NothingWritten(codec: Codec<Response>, bytes: Bytes)
    ensures Written(codec, bytes, [], bytes)
  {
  }
}
