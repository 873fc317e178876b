/** The shared tables of the rate limiter (pkg/httputils/rate_limiter.go) and the two critical
    sections that update them. Channels are numbered in creation order, so a channel's number is
    also its generation, and a closed channel is never reused. */
module RateLimiter {

  type Key = string

  /** What http.RoundTripper returns: a response or an error. */
  datatype Reply = Response(body: string) | TransportError(message: string)

  /** One goroutine running handleRequests. Calling is the call into Transport; Replying is the
      moment between the assignment of the result and wg.Done(). */
  datatype Worker = Idle | Calling(caller: nat) | Replying(caller: nat) | Exited

  datatype Channel = Channel(key: Key, closed: bool, workers: seq<Worker>)

  /** The fields guarded by `access`, the channels they point to, and whether Go has panicked
      (a send on, or a second close of, a closed channel). */
  datatype Tables = Tables(requestsChans: map<Key, nat>, inFlights: map<Key, int>,
                           chans: seq<Channel>, panicked: bool)

  const EMPTY_TABLES := Tables(map[], map[], [], false)

  /** ConcurrentCallsLimit, raised to one. */
  function EffectiveLimit(limit: int): (n: nat)
    ensures n >= 1 && n >= limit && (n == 1 || n == limit)
  {
    if limit < 1 then 1 else limit
  }

  /** Go reads a missing key of a map of ints as zero. */
  function InFlight(inFlights: map<Key, int>, key: Key): int {
    if key in inFlights then inFlights[key] else 0
  }

  function NewChannel(limit: int, key: Key): Channel {
    Channel(key, false, seq(EffectiveLimit(limit), _ => Idle))
  }

  /** The channel of the key, a fresh one when there is none. */
  function OpenChannel(limit: int, t: Tables, key: Key): Tables {
    if key in t.requestsChans then t
    else t.(requestsChans := t.requestsChans[key := |t.chans|],
            chans := t.chans + [NewChannel(limit, key)])
  }

  function Registered(limit: int, t: Tables, key: Key): Tables {
    var withChannel := OpenChannel(limit, t, key);
    withChannel.(inFlights := withChannel.inFlights[key := InFlight(withChannel.inFlights, key) + 1])
  }

  /** The tables after done(key). */
  function Released(t: Tables, key: Key): Tables {
    var known := key in t.requestsChans;
    var inFlights := if known then t.inFlights[key := InFlight(t.inFlights, key) - 1] else t.inFlights;
    if InFlight(inFlights, key) != 0 then t.(inFlights := inFlights)
    else
      var ch := if known then t.requestsChans[key] else 0;
      var open := known && ch < |t.chans| && !t.chans[ch].closed;
      t.(requestsChans := t.requestsChans - {key},
         inFlights := inFlights - {key},
         chans := if open then t.chans[ch := t.chans[ch].(closed := true)] else t.chans,
         panicked := t.panicked || (known && !open))
  }

  /** done undoes getRequestChan. While others are in flight for the key nothing else is left of the
      call; a caller that was alone leaves one more channel, closed, behind it. For a key nobody is in
      flight for, done does nothing. */
  lemma ReleasedUndoesRegistered(limit: int, t: Tables, key: Key)
    ensures key in t.requestsChans && InFlight(t.inFlights, key) >= 1 ==>
              Released(Registered(limit, t, key), key) == t
    ensures key !in t.requestsChans && key !in t.inFlights ==>
              && Released(Registered(limit, t, key), key)
                 == t.(chans := t.chans + [Channel(key, true, seq(if limit < 1 then 1 else limit, _ => Idle))])
              && Released(t, key) == t
  {
    var registered := Registered(limit, t, key);
    if key in t.requestsChans && InFlight(t.inFlights, key) >= 1 {
      assert registered.inFlights[key := InFlight(registered.inFlights, key) - 1] == t.inFlights;
    } else if key !in t.requestsChans && key !in t.inFlights {
      var released := Released(registered, key);
      assert released.requestsChans == t.requestsChans && released.inFlights == t.inFlights;
      assert t.requestsChans - {key} == t.requestsChans && t.inFlights - {key} == t.inFlights;
      assert registered.chans[|t.chans| := NewChannel(limit, key).(closed := true)]
          == t.chans + [NewChannel(limit, key).(closed := true)];
    }
  }

  /** The object the goroutines share. Each method is one critical section of `access`. */
  class RateLimitedRoundTripper {
    const concurrentCallsLimit: int
    var requestsChans: map<Key, nat>
    var inFlights: map<Key, int>
    var chans: seq<Channel>
    var panicked: bool

    function State(): Tables
      reads this
    {
      Tables(requestsChans, inFlights, chans, panicked)
    }

    /** A nil map reads like an empty one, so the lazy allocation of the two maps is not visible. */
    constructor (limit: int)
      ensures concurrentCallsLimit == limit
      ensures State() == EMPTY_TABLES
    {
      concurrentCallsLimit := limit;
      requestsChans, inFlights, chans, panicked := map[], map[], [], false;
    }

    method GetRequestChan(key: Key) returns (requestsChan: nat)
      modifies this
      ensures State() == Registered(concurrentCallsLimit, old(State()), key)
      ensures key in requestsChans && requestsChan == requestsChans[key]
    {
      if key in requestsChans {
        requestsChan := requestsChans[key];
      } else {
        requestsChan := |chans|;
        requestsChans := requestsChans[key := requestsChan];
        var limit := concurrentCallsLimit;
        if limit < 1 {
          limit := 1;
        }
        var workers: seq<Worker> := [];
        for i := 0 to limit
          invariant workers == seq(i, _ => Idle)
        {
          workers := workers + [Idle];
        }
        chans := chans + [Channel(key, false, workers)];
      }
      inFlights := inFlights[key := InFlight(inFlights, key) + 1];
    }

    method Done(key: Key)
      modifies this
      ensures State() == Released(old(State()), key)
    {
      var ok := key in requestsChans;
      if ok {
        inFlights := inFlights[key := InFlight(inFlights, key) - 1];
      }
      if InFlight(inFlights, key) == 0 {
        if ok {
          var requestsChan := requestsChans[key];
          if requestsChan < |chans| && !chans[requestsChan].closed {
            chans := chans[requestsChan := chans[requestsChan].(closed := true)];
          } else {
            panicked := true;
          }
        }
        requestsChans := requestsChans - {key};
        inFlights := inFlights - {key};
      }
    }
  }
}
