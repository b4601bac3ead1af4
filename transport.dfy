/** The HTTP transport the cache calls into (http.Client.Do at
    cache.go:146-156). Its answers are the model's input: a script of
    replies, one per call, and a call that finds the script exhausted
    fails. Every call is recorded, so that what the cache asks of the
    network can be stated. */
module Transport {
  import opened Wrappers
  import opened CacheKey

  /** A response as the cache keeps it: status code and body text. */
  datatype Reply = Reply(status: int, body: string)

  /** The replies still to come (None is a failed request) and the
      requests made so far. */
  datatype NetState = NetState(replies: seq<Option<Reply>>, log: seq<Request>)

  /** One round trip: the request is recorded and the next reply used. */
  function Perform(n: NetState, req: Request): (r: (NetState, Option<Reply>))
    ensures n.log <= r.0.log && |r.0.log| == |n.log| + 1 && r.0.log[|n.log|] == req
    ensures n.replies != [] ==> n.replies == [r.1] + r.0.replies
    ensures n.replies == [] ==> r.1 == None && r.0.replies == []
  {
    if n.replies == [] then (NetState([], n.log + [req]), None)
    else (NetState(n.replies[1..], n.log + [req]), n.replies[0])
  }

  class Transport {
    var replies: seq<Option<Reply>>
    var log: seq<Request>

    ghost function State(): NetState
      reads this
    {
      NetState(replies, log)
    }

    constructor (replies: seq<Option<Reply>>)
      ensures State() == NetState(replies, [])
    {
      this.replies := replies;
      this.log := [];
    }

    method Do(req: Request) returns (reply: Option<Reply>)
      modifies this
      ensures (State(), reply) == Perform(old(State()), req)
    {
      log := log + [req];
      if replies == [] {
        reply := None;
      } else {
        reply := replies[0];
        replies := replies[1..];
      }
    }
  }
}
