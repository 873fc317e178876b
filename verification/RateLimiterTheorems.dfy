/** What the rate limiter promises over whole runs: the limit per key, no panic, termination, and
    one Transport call per request. */
module RateLimiterTheorems {
  import opened Collections
  import opened RateLimiter
  import opened RateLimiterProtocol

  lemma RunInv(cfg: Config, run: seq<State>, i: nat)
    requires IsRun(cfg, run) && i < |run|
    ensures Inv(cfg, run[i])
  {
    if i == 0 {
      InitInv(cfg);
    } else {
      RunInv(cfg, run, i - 1);
      assert Next(cfg, run[i - 1], run[i - 1 + 1]);
      var step :| Enabled(cfg, run[i - 1], step) && run[i] == Apply(cfg, run[i - 1], step);
      StepKeepsInv(cfg, run[i - 1], step);
    }
  }

  lemma ReachableInv(cfg: Config, s: State)
    requires Reachable(cfg, s)
    ensures Inv(cfg, s)
  {
    var run :| IsRun(cfg, run) && run[|run| - 1] == s;
    RunInv(cfg, run, |run| - 1);
  }

  lemma ExtendRun(cfg: Config, run: seq<State>, step: Step)
    requires IsRun(cfg, run) && Enabled(cfg, run[|run| - 1], step)
    ensures IsRun(cfg, run + [Apply(cfg, run[|run| - 1], step)])
  {
    var longer := run + [Apply(cfg, run[|run| - 1], step)];
    forall i | 0 <= i < |longer| - 1 ensures Next(cfg, longer[i], longer[i + 1]) {
      if i < |run| - 1 {
        assert Next(cfg, run[i], run[i + 1]);
      }
    }
  }

  lemma Extend(cfg: Config, s: State, step: Step) returns (s': State)
    requires Reachable(cfg, s) && Enabled(cfg, s, step)
    ensures s' == Apply(cfg, s, step) && Reachable(cfg, s')
  {
    var run :| IsRun(cfg, run) && run[|run| - 1] == s;
    s' := Apply(cfg, s, step);
    ExtendRun(cfg, run, step);
    var longer := run + [s'];
    assert longer[|longer| - 1] == s';
  }

  // ---------------------------------------------------------------------------------------------
  // Safety
  // ---------------------------------------------------------------------------------------------

  /** The calls into Transport under way for key k, over every channel ever created for k. */
  function RunningCalls(s: State, k: Key): set<(nat, nat)> {
    set ch: nat, w: nat | ch < |s.tables.chans| && w < |s.tables.chans[ch].workers|
                          && s.tables.chans[ch].key == k && s.tables.chans[ch].workers[w].Calling? :: (ch, w)
  }

  lemma PairsSize(ch: nat, n: nat, pairs: set<(nat, nat)>)
    requires forall p :: p in pairs ==> p.0 == ch && p.1 < n
    ensures |pairs| <= n
  {
    if n == 0 {
    } else {
      PairsSize(ch, n - 1, pairs - {(ch, n - 1)});
    }
  }

  /** At most max(1, ConcurrentCallsLimit) calls run per key, whatever the channel generations:
      they all belong to the channel the key is mapped to now. */
  lemma ConcurrencyLimit(cfg: Config, s: State, k: Key)
    requires Reachable(cfg, s)
    ensures |RunningCalls(s, k)| <= EffectiveLimit(cfg.limit)
    ensures forall p :: p in RunningCalls(s, k) ==> k in s.tables.requestsChans && p.0 == s.tables.requestsChans[k]
  {
    ReachableInv(cfg, s);
    forall p | p in RunningCalls(s, k)
      ensures k in s.tables.requestsChans && p.0 == s.tables.requestsChans[k] && p.1 < EffectiveLimit(cfg.limit)
    {
      assert WorkerInv(s, p.0, p.1);
      assert CallerInv(cfg, s, WorkerAt(s, p.0, p.1).caller);
    }
    PairsSize(if k in s.tables.requestsChans then s.tables.requestsChans[k] else 0,
              EffectiveLimit(cfg.limit), RunningCalls(s, k));
  }

  /** The callers below n have entered, the others have not started. */
  ghost predicate Entered(cfg: Config, s: State, key: Key, n: nat) {
    && Reachable(cfg, s) && |s.callers| == |cfg.keyOf| && n <= |s.callers| && !s.tables.panicked
    && (forall c :: 0 <= c < n ==> s.callers[c].pc == Sending(0))
    && (forall c :: n <= c < |s.callers| ==> s.callers[c].pc == Start)
    && (n == 0 ==> s.tables == EMPTY_TABLES)
    && (n > 0 ==> key in s.tables.requestsChans && s.tables.requestsChans[key] == 0
                  && s.tables.chans == [NewChannel(cfg.limit, key)])
  }

  lemma AllEnter(cfg: Config, key: Key, n: nat) returns (s: State)
    requires n <= |cfg.keyOf| && forall c :: 0 <= c < |cfg.keyOf| ==> cfg.keyOf[c] == key
    ensures Entered(cfg, s, key, n)
  {
    if n == 0 {
      s := Init(cfg);
      assert IsRun(cfg, [s]);
    } else {
      var before := AllEnter(cfg, key, n - 1);
      s := Extend(cfg, before, EnterRequestChan(n - 1));
    }
  }

  /** Worker w serves caller w, for every w below n; the other callers are still sending. */
  ghost predicate Serving(cfg: Config, s: State, key: Key, n: nat) {
    && Reachable(cfg, s) && |s.callers| == |cfg.keyOf| && n <= |s.callers| && !s.tables.panicked
    && (forall c :: n <= c < |s.callers| ==> s.callers[c].pc == Sending(0))
    && |s.tables.chans| == 1 && s.tables.chans[0].key == key && !s.tables.chans[0].closed
    && |s.tables.chans[0].workers| == |s.callers|
    && (forall w :: 0 <= w < |s.callers| ==> s.tables.chans[0].workers[w] == if w < n then Calling(w) else Idle)
  }

  function FirstWorkers(n: nat): (pairs: set<(nat, nat)>)
    ensures |pairs| == n && forall p :: p in pairs <==> p.0 == 0 && p.1 < n
  {
    if n == 0 then {} else FirstWorkers(n - 1) + {(0, n - 1)}
  }

  lemma ServeOneMore(cfg: Config, s: State, key: Key, n: nat) returns (s': State)
    requires Serving(cfg, s, key, n) && n < |cfg.keyOf|
    ensures Serving(cfg, s', key, n + 1)
  {
    s' := Extend(cfg, s, HandOver(n, n));
  }

  lemma AllServed(cfg: Config, key: Key, n: nat) returns (s: State)
    requires n <= |cfg.keyOf| == EffectiveLimit(cfg.limit)
    requires forall c :: 0 <= c < |cfg.keyOf| ==> cfg.keyOf[c] == key
    ensures Serving(cfg, s, key, n)
  {
    if n == 0 {
      s := AllEnter(cfg, key, |cfg.keyOf|);
    } else {
      s := AllServed(cfg, key, n - 1);
      s := ServeOneMore(cfg, s, key, n - 1);
    }
  }

  /** The limit is not only kept but used: some run has that many calls under way for the key. */
  lemma LimitIsReached(limit: int, key: Key) returns (cfg: Config, s: State)
    ensures cfg.limit == limit && Reachable(cfg, s) && |RunningCalls(s, key)| == EffectiveLimit(limit)
  {
    cfg := Config(limit, seq(EffectiveLimit(limit), _ => key));
    s := AllServed(cfg, key, EffectiveLimit(limit));
    assert RunningCalls(s, key) == FirstWorkers(EffectiveLimit(limit));
  }

  /** No run sends on a closed channel, closes one twice or drops a wait group below zero; the two
      maps have the same keys and count the callers between getRequestChan and done, each of which
      holds the open channel its key is mapped to. */
  lemma NeverPanics(cfg: Config, s: State)
    requires Reachable(cfg, s)
    ensures !s.tables.panicked
    ensures forall c: nat :: !Enabled(cfg, s, SendOnClosed(c))
    ensures s.tables.requestsChans.Keys == s.tables.inFlights.Keys
    ensures |s.callers| == |cfg.keyOf|
    ensures forall k :: k in s.tables.inFlights ==> s.tables.inFlights[k] == |Holders(cfg, s, k)| >= 1
    ensures forall c: nat :: c < |s.callers| && InFlightPc(s.callers[c].pc) ==>
              && cfg.keyOf[c] in s.tables.requestsChans
              && s.tables.requestsChans[cfg.keyOf[c]] == s.callers[c].pc.ch < |s.tables.chans|
              && !s.tables.chans[s.callers[c].pc.ch].closed
  {
    ReachableInv(cfg, s);
    forall c: nat ensures !Enabled(cfg, s, SendOnClosed(c)) { NeverSendsOnClosed(cfg, s, c); }
    forall c: nat | c < |s.callers| && InFlightPc(s.callers[c].pc)
      ensures cfg.keyOf[c] in s.tables.requestsChans && s.tables.requestsChans[cfg.keyOf[c]] == s.callers[c].pc.ch
    {
      assert CallerInv(cfg, s, c);
    }
  }

  /** A request is never executed twice, and a caller returns the reply to its own request. */
  lemma OwnReplyOnce(cfg: Config, s: State, c: nat)
    requires Reachable(cfg, s) && c < |cfg.keyOf|
    ensures |s.callers| == |cfg.keyOf|
    ensures |RepliesTo(s.calls, c)| <= 1
    ensures s.callers[c].pc.Finished? ==>
              s.callers[c].pc.result.Some? && RepliesTo(s.calls, c) == [s.callers[c].pc.result.value]
  {
    ReachableInv(cfg, s);
    assert CallerInv(cfg, s, c);
  }

  lemma WithWorkerTwice(t: Tables, ch: nat, w: nat, first: Worker, second: Worker)
    requires ch < |t.chans| && w < |t.chans[ch].workers|
    ensures WithWorker(WithWorker(t, ch, w, first), ch, w, second) == WithWorker(t, ch, w, second)
  {
    assert t.chans[ch].workers[w := first][w := second] == t.chans[ch].workers[w := second];
    var (once, twice) := (WithWorker(t, ch, w, first), WithWorker(t, ch, w, second));
    assert once.chans[ch := once.chans[ch].(workers := once.chans[ch].workers[w := second])] == twice.chans;
  }

  /** Transport returns, and the worker signals. */
  lemma ReplyIsSignalled(cfg: Config, s: State, ch: nat, w: nat, reply: Reply) returns (s': State)
    requires Reachable(cfg, s) && Enabled(cfg, s, TransportReturns(ch, w, reply))
    ensures var c := WorkerAt(s, ch, w).caller;
            && Reachable(cfg, s') && s'.calls == s.calls + [Call(c, reply)]
            && s'.tables == WithWorker(s.tables, ch, w, Idle)
            && s'.callers == s.callers[c := Caller(Waiting(ch, w), 0, Some(reply))]
  {
    ReachableInv(cfg, s);
    assert WorkerInv(s, ch, w);
    var c := WorkerAt(s, ch, w).caller;
    s' := Extend(cfg, s, TransportReturns(ch, w, reply));
    s' := Extend(cfg, s', SignalDone(ch, w));
    WithWorkerTwice(s.tables, ch, w, Replying(c), Idle);
  }

  /** Whatever Transport returns, response or error, its caller can return next. */
  lemma ReplyIsReturned(cfg: Config, s: State, ch: nat, w: nat, reply: Reply) returns (s': State)
    requires Reachable(cfg, s) && Enabled(cfg, s, TransportReturns(ch, w, reply))
    ensures var c := WorkerAt(s, ch, w).caller;
            && Reachable(cfg, s') && s'.calls == s.calls + [Call(c, reply)]
            && s'.callers == s.callers[c := Caller(Finished(Some(reply)), 0, Some(reply))]
            && c < |cfg.keyOf| && s'.tables == Released(WithWorker(s.tables, ch, w, Idle), cfg.keyOf[c])
  {
    var c := WorkerAt(s, ch, w).caller;
    s' := ReplyIsSignalled(cfg, s, ch, w, reply);
    s' := Extend(cfg, s', LeaveDone(c));
  }

  /** A caller for a key nobody asks for is served at once. */
  lemma EntersAlone(cfg: Config, s: State, c: nat) returns (s': State)
    requires Reachable(cfg, s) && c < |cfg.keyOf| == |s.callers| && s.callers[c].pc.Start?
    requires cfg.keyOf[c] !in s.tables.requestsChans
    ensures var ch, key := |s.tables.chans|, cfg.keyOf[c];
            && Reachable(cfg, s') && s'.callers == s.callers[c := s.callers[c].(pc := Waiting(ch, 0))]
            && HasWorker(s', ch, 0) && WorkerAt(s', ch, 0) == Calling(c) && !s'.tables.panicked
            && s'.tables.requestsChans == s.tables.requestsChans[key := ch]
            && s'.tables.inFlights == s.tables.inFlights[key := 1] && s'.calls == s.calls
  {
    ReachableInv(cfg, s);
    s' := Extend(cfg, s, EnterRequestChan(c));
    s' := Extend(cfg, s', HandOver(c, 0));
  }

  lemma ReleasedAlone(t: Tables, key: Key)
    requires key in t.requestsChans && key in t.inFlights && t.inFlights[key] == 1
    ensures Released(t, key).requestsChans == t.requestsChans - {key}
    ensures Released(t, key).inFlights == t.inFlights - {key}
  {
    assert t.inFlights[key := 0] - {key} == t.inFlights - {key};
  }

  lemma AddedAndRemoved<V>(m: map<Key, V>, key: Key, v: V)
    requires key !in m
    ensures m[key := v] - {key} == m
  {}

  /** A request for a key nobody asks for goes through alone: the reply is returned, and the maps are as
      they were. */
  lemma SoloRoundTrip(cfg: Config, s: State, c: nat, reply: Reply) returns (s': State)
    requires Reachable(cfg, s) && c < |cfg.keyOf| == |s.callers| && s.callers[c].pc.Start?
    requires cfg.keyOf[c] !in s.tables.requestsChans
    ensures Reachable(cfg, s') && s'.calls == s.calls + [Call(c, reply)]
    ensures s'.callers == s.callers[c := Caller(Finished(Some(reply)), 0, Some(reply))]
    ensures s'.tables.requestsChans == s.tables.requestsChans && s'.tables.inFlights == s.tables.inFlights
  {
    var key, ch := cfg.keyOf[c], |s.tables.chans|;
    ReachableInv(cfg, s);
    var served := EntersAlone(cfg, s, c);
    s' := ReplyIsReturned(cfg, served, ch, 0, reply);
    ReleasedAlone(WithWorker(served.tables, ch, 0, Idle), key);
    AddedAndRemoved(s.tables.requestsChans, key, ch);
    AddedAndRemoved(s.tables.inFlights, key, 1);
  }

  // ---------------------------------------------------------------------------------------------
  // Who waits
  // ---------------------------------------------------------------------------------------------

  /** The callers of key k whose request a worker has taken and not yet answered. */
  function Served(cfg: Config, s: State, k: Key): set<nat>
    requires |s.callers| == |cfg.keyOf|
  {
    set c: nat | c < |s.callers| && cfg.keyOf[c] == k && s.callers[c].pc.Waiting? && s.callers[c].wg == 1
  }

  function BusyWorkers(ws: seq<Worker>): set<nat> {
    set w: nat | w < |ws| && !ws[w].Idle?
  }

  lemma {:induction false} SameSize(a: set<nat>, b: set<nat>, f: map<nat, nat>)
    requires a <= f.Keys && (forall x :: x in a ==> f[x] in b)
    requires forall x, y :: x in a && y in a && f[x] == f[y] ==> x == y
    requires forall z :: z in b ==> exists x :: x in a && f[x] == z
    ensures |a| == |b|
    decreases |a|
  {
    if a == {} {
      assert b == {};
    } else {
      var x :| x in a;
      SameSize(a - {x}, b - {f[x]}, f);
    }
  }

  function Below(n: nat): (s: set<nat>)
    ensures |s| == n && forall i: nat :: i in s <==> i < n
  {
    if n == 0 then {} else Below(n - 1) + {n - 1}
  }

  /** The busy workers of an open channel are those that serve its callers, one each. */
  lemma ServedAreBusy(cfg: Config, s: State, k: Key)
    requires Inv(cfg, s) && k in s.tables.requestsChans
    ensures |BusyWorkers(s.tables.chans[s.tables.requestsChans[k]].workers)| == |Served(cfg, s, k)|
  {
    var ch, served := s.tables.requestsChans[k], Served(cfg, s, k);
    var busy := BusyWorkers(s.tables.chans[ch].workers);
    var f: map<nat, nat> := map c: nat | c in served :: s.callers[c].pc.worker;
    forall c: nat | c in served
      ensures s.callers[c].pc.ch == ch && f[c] in busy
      ensures WorkerAt(s, ch, f[c]).Calling? || WorkerAt(s, ch, f[c]).Replying?
      ensures WorkerAt(s, ch, f[c]).caller == c
    {
      assert CallerInv(cfg, s, c);
    }
    forall w: nat | w in busy ensures exists c :: c in served && f[c] == w {
      assert HasWorker(s, ch, w) && WorkerInv(s, ch, w);
      var c := WorkerAt(s, ch, w).caller;
      assert CallerInv(cfg, s, c) && c in served;
    }
    SameSize(served, busy, f);
  }

  lemma IdleExactlyBelow(ws: seq<Worker>)
    ensures (exists w: nat :: w < |ws| && ws[w].Idle?) <==> |BusyWorkers(ws)| < |ws|
    ensures |BusyWorkers(ws)| <= |ws|
  {
    if w: nat :| w < |ws| && ws[w].Idle? {
      SubsetSize(BusyWorkers(ws), Below(|ws|) - {w});
    } else {
      assert BusyWorkers(ws) == Below(|ws|);
    }
  }

  /** A caller waits to be served exactly while max(1, ConcurrentCallsLimit) callers of its own key are
      being served; requests for other keys never hold it up. */
  lemma WaitsExactlyAtLimit(cfg: Config, s: State, c: nat)
    requires Reachable(cfg, s) && c < |s.callers| && s.callers[c].pc.Sending?
    ensures |s.callers| == |cfg.keyOf|
    ensures var limit := if cfg.limit < 1 then 1 else cfg.limit;
            && |Served(cfg, s, cfg.keyOf[c])| <= limit
            && ((exists w: nat :: Enabled(cfg, s, HandOver(c, w))) <==> |Served(cfg, s, cfg.keyOf[c])| < limit)
  {
    ReachableInv(cfg, s);
    assert CallerInv(cfg, s, c);
    var ws := s.tables.chans[s.callers[c].pc.ch].workers;
    ServedAreBusy(cfg, s, cfg.keyOf[c]);
    IdleExactlyBelow(ws);
    if w: nat :| w < |ws| && ws[w].Idle? {
      assert HasWorker(s, s.callers[c].pc.ch, w) && Enabled(cfg, s, HandOver(c, w));
    }
  }

  /** No other caller waits: it enters at once, and leaves once its reply is there. */
  lemma CallersNeverWaitElsewhere(cfg: Config, s: State, c: nat)
    requires Reachable(cfg, s) && c < |s.callers|
    ensures |s.callers| == |cfg.keyOf|
    ensures s.callers[c].pc.Start? ==> Enabled(cfg, s, EnterRequestChan(c))
    ensures s.callers[c].pc.Waiting? ==>
              (Enabled(cfg, s, LeaveDone(c)) <==> c !in Served(cfg, s, cfg.keyOf[c]))
  {
    ReachableInv(cfg, s);
    assert CallerInv(cfg, s, c);
  }

  /** Nor do workers: Transport may return anything at any time, the reply is signalled, and an idle worker
      ends exactly when its channel is closed. */
  lemma WorkersNeverWait(cfg: Config, s: State, ch: nat, w: nat, reply: Reply)
    requires Reachable(cfg, s) && HasWorker(s, ch, w)
    ensures match WorkerAt(s, ch, w)
            case Idle => Enabled(cfg, s, WorkerExits(ch, w)) <==> s.tables.chans[ch].closed
            case Calling(_) => Enabled(cfg, s, TransportReturns(ch, w, reply))
            case Replying(_) => Enabled(cfg, s, SignalDone(ch, w))
            case Exited => true
  {
    ReachableInv(cfg, s);
    assert WorkerInv(s, ch, w);
  }

  // ---------------------------------------------------------------------------------------------
  // Progress
  // ---------------------------------------------------------------------------------------------

  /** Everyone has an answer, the maps are empty, and every channel is closed and drained. */
  ghost predicate Completed(cfg: Config, s: State) {
    && |s.callers| == |cfg.keyOf|
    && (forall c :: 0 <= c < |s.callers| ==>
          s.callers[c].pc.Finished? && s.callers[c].pc.result.Some?
          && RepliesTo(s.calls, c) == [s.callers[c].pc.result.value])
    && s.tables.requestsChans == map[] && s.tables.inFlights == map[]
    && (forall ch :: 0 <= ch < |s.tables.chans| ==>
          s.tables.chans[ch].closed && forall w :: w in s.tables.chans[ch].workers ==> w.Exited?)
  }

  /** The step by which worker w moves on; an idle worker needs a sender or a closed channel. */
  function WorkerStep(s: State, ch: nat, w: nat): Step
    requires HasWorker(s, ch, w)
  {
    match WorkerAt(s, ch, w)
    case Calling(_) => TransportReturns(ch, w, Response(""))
    case Replying(_) => SignalDone(ch, w)
    case _ => WorkerExits(ch, w)
  }

  lemma UnfinishedCallerCanMove(cfg: Config, s: State, c: nat) returns (step: Step)
    requires Inv(cfg, s) && c < |s.callers| && !s.callers[c].pc.Finished?
    ensures Enabled(cfg, s, step)
  {
    assert CallerInv(cfg, s, c);
    match s.callers[c].pc
    case Start => step := EnterRequestChan(c);
    case Sending(ch) =>
      assert HasWorker(s, ch, 0) && WorkerInv(s, ch, 0);
      step := if WorkerAt(s, ch, 0).Idle? then HandOver(c, 0) else WorkerStep(s, ch, 0);
    case Waiting(ch, w) =>
      step := if s.callers[c].wg == 0 then LeaveDone(c) else WorkerStep(s, ch, w);
  }

  lemma AllFinishedEmptiesTables(cfg: Config, s: State)
    requires Inv(cfg, s) && forall c :: 0 <= c < |s.callers| ==> s.callers[c].pc.Finished?
    ensures s.tables.requestsChans == map[] && s.tables.inFlights == map[]
  {
    forall k ensures k !in s.tables.inFlights {
      assert Holders(cfg, s, k) == {};
    }
    assert s.tables.inFlights.Keys == {};
    assert s.tables.requestsChans.Keys == {};
  }

  /** No deadlock: unless all is done, some goroutine can move. */
  lemma Progress(cfg: Config, s: State) returns (step: Step)
    requires Inv(cfg, s) && !Completed(cfg, s)
    ensures Enabled(cfg, s, step)
  {
    if c :| 0 <= c < |s.callers| && !s.callers[c].pc.Finished? {
      step := UnfinishedCallerCanMove(cfg, s, c);
    } else {
      AllFinishedEmptiesTables(cfg, s);
      forall c: nat | c < |s.callers|
        ensures RepliesTo(s.calls, c) == Replies(s.callers[c].pc.result) && s.callers[c].pc.result.Some?
      {
        assert CallerInv(cfg, s, c);
      }
      var ch, w :| 0 <= ch < |s.tables.chans| && 0 <= w < |s.tables.chans[ch].workers|
                   && !s.tables.chans[ch].workers[w].Exited?;
      assert HasWorker(s, ch, w) && WorkerInv(s, ch, w);
      step := WorkerExits(ch, w);
    }
  }

  // ---------------------------------------------------------------------------------------------
  // Termination
  // ---------------------------------------------------------------------------------------------

  function CallerWeight(limit: int, pc: Pc): nat {
    match pc
    case Start => EffectiveLimit(limit) + 5
    case Sending(_) => 4
    case Waiting(_, _) => 1
    case Finished(_) => 0
  }

  function WorkerWeight(w: Worker): nat {
    match w case Idle => 1 case Calling(_) => 3 case Replying(_) => 2 case Exited => 0
  }

  function WorkerWeights(ws: seq<Worker>): (r: seq<nat>)
    ensures |r| == |ws| && forall i :: 0 <= i < |ws| ==> r[i] == WorkerWeight(ws[i])
  {
    seq(|ws|, i requires 0 <= i < |ws| => WorkerWeight(ws[i]))
  }

  function ChannelWeights(chans: seq<Channel>): (r: seq<nat>)
    ensures |r| == |chans| && forall i :: 0 <= i < |chans| ==> r[i] == Sum(WorkerWeights(chans[i].workers))
  {
    seq(|chans|, i requires 0 <= i < |chans| => Sum(WorkerWeights(chans[i].workers)))
  }

  function CallerWeights(limit: int, callers: seq<Caller>): (r: seq<nat>)
    ensures |r| == |callers| && forall i :: 0 <= i < |callers| ==> r[i] == CallerWeight(limit, callers[i].pc)
  {
    seq(|callers|, i requires 0 <= i < |callers| => CallerWeight(limit, callers[i].pc))
  }

  function Measure(cfg: Config, s: State): nat {
    Sum(CallerWeights(cfg.limit, s.callers)) + Sum(ChannelWeights(s.tables.chans))
  }

  lemma CallersWeigh(limit: int, callers: seq<Caller>, c: nat, caller: Caller)
    requires c < |callers|
    ensures Sum(CallerWeights(limit, callers[c := caller])) + CallerWeight(limit, callers[c].pc)
         == Sum(CallerWeights(limit, callers)) + CallerWeight(limit, caller.pc)
  {
    SumUpdate(CallerWeights(limit, callers), c, CallerWeight(limit, caller.pc));
    assert CallerWeights(limit, callers[c := caller])
        == CallerWeights(limit, callers)[c := CallerWeight(limit, caller.pc)];
  }

  lemma ChannelsWeigh(t: Tables, ch: nat, w: nat, worker: Worker)
    requires ch < |t.chans| && w < |t.chans[ch].workers|
    ensures Sum(ChannelWeights(WithWorker(t, ch, w, worker).chans)) + WorkerWeight(t.chans[ch].workers[w])
         == Sum(ChannelWeights(t.chans)) + WorkerWeight(worker)
  {
    var ws, weights := t.chans[ch].workers, ChannelWeights(t.chans);
    SumUpdate(WorkerWeights(ws), w, WorkerWeight(worker));
    assert WorkerWeights(ws[w := worker]) == WorkerWeights(ws)[w := WorkerWeight(worker)];
    SumUpdate(weights, ch, Sum(WorkerWeights(ws[w := worker])));
    assert ChannelWeights(WithWorker(t, ch, w, worker).chans) == weights[ch := Sum(WorkerWeights(ws[w := worker]))];
  }

  /** Opening a channel adds one unit per worker it starts. */
  lemma RegisteredWeighs(limit: int, t: Tables, k: Key)
    ensures Sum(ChannelWeights(Registered(limit, t, k).chans)) <= Sum(ChannelWeights(t.chans)) + EffectiveLimit(limit)
  {
    if k !in t.requestsChans {
      var created := NewChannel(limit, k);
      SumConstant(WorkerWeights(created.workers), 1);
      var weight: nat := Sum(WorkerWeights(created.workers));
      assert ChannelWeights(t.chans + [created]) == ChannelWeights(t.chans) + [weight];
      SumAppend(ChannelWeights(t.chans), [weight]);
    }
  }

  /** Closing a channel leaves its workers as they are. */
  lemma ReleasedWeighs(t: Tables, k: Key)
    ensures ChannelWeights(Released(t, k).chans) == ChannelWeights(t.chans)
  {}

  /** Every step but the one that panics, which NeverSendsOnClosed rules out, lowers the measure. */
  lemma StepDecreases(cfg: Config, s: State, step: Step)
    requires Enabled(cfg, s, step) && !step.SendOnClosed?
    ensures Measure(cfg, Apply(cfg, s, step)) < Measure(cfg, s)
  {
    var s' := Apply(cfg, s, step);
    match step
    case EnterRequestChan(c) =>
      CallersWeigh(cfg.limit, s.callers, c, s'.callers[c]);
      RegisteredWeighs(cfg.limit, s.tables, cfg.keyOf[c]);
    case HandOver(c, w) =>
      CallersWeigh(cfg.limit, s.callers, c, s'.callers[c]);
      ChannelsWeigh(s.tables, s.callers[c].pc.ch, w, Calling(c));
    case TransportReturns(ch, w, reply) =>
      var c := WorkerAt(s, ch, w).caller;
      CallersWeigh(cfg.limit, s.callers, c, s'.callers[c]);
      ChannelsWeigh(s.tables, ch, w, Replying(c));
    case SignalDone(ch, w) =>
      var c := WorkerAt(s, ch, w).caller;
      CallersWeigh(cfg.limit, s.callers, c, s'.callers[c]);
      ChannelsWeigh(s.tables, ch, w, Idle);
    case LeaveDone(c) =>
      CallersWeigh(cfg.limit, s.callers, c, s'.callers[c]);
      ReleasedWeighs(s.tables, cfg.keyOf[c]);
    case WorkerExits(ch, w) =>
      ChannelsWeigh(s.tables, ch, w, Exited);
  }

  lemma RunDecreases(cfg: Config, run: seq<State>, i: nat)
    requires IsRun(cfg, run) && i < |run|
    ensures i + Measure(cfg, run[i]) <= Measure(cfg, run[0])
  {
    if i == 0 {
    } else {
      RunDecreases(cfg, run, i - 1);
      RunInv(cfg, run, i - 1);
      assert Next(cfg, run[i - 1], run[i - 1 + 1]);
      var step :| Enabled(cfg, run[i - 1], step) && run[i] == Apply(cfg, run[i - 1], step);
      if step.SendOnClosed? {
        NeverSendsOnClosed(cfg, run[i - 1], step.caller);
      } else {
        StepDecreases(cfg, run[i - 1], step);
      }
    }
  }

  /** Every run of n callers ends within n * (limit + 5) steps. */
  lemma RunsAreBounded(cfg: Config, run: seq<State>)
    requires IsRun(cfg, run)
    ensures |run| - 1 <= |cfg.keyOf| * (EffectiveLimit(cfg.limit) + 5)
  {
    RunDecreases(cfg, run, |run| - 1);
    SumConstant(CallerWeights(cfg.limit, run[0].callers), EffectiveLimit(cfg.limit) + 5);
  }

  /** No reachable state is stuck before everyone is answered: a state without successors is a
      completed one, and only such a state has none. */
  lemma StuckOnlyWhenCompleted(cfg: Config, s: State)
    requires Reachable(cfg, s)
    ensures (forall step :: !Enabled(cfg, s, step)) <==> Completed(cfg, s)
  {
    ReachableInv(cfg, s);
    if Completed(cfg, s) {
      forall ch: nat, w: nat | HasWorker(s, ch, w) ensures WorkerAt(s, ch, w).Exited? {
        assert WorkerAt(s, ch, w) in s.tables.chans[ch].workers;
      }
      forall step ensures !Enabled(cfg, s, step) {}
    } else {
      var step := Progress(cfg, s);
    }
  }

  /** Every run, however far it went, extends to one in which every request was executed exactly
      once and answered with its own reply. */
  lemma EveryRunCompletes(cfg: Config, run: seq<State>) returns (whole: seq<State>)
    requires IsRun(cfg, run)
    ensures IsRun(cfg, whole) && run <= whole && Completed(cfg, whole[|whole| - 1])
    decreases Measure(cfg, run[|run| - 1])
  {
    var s := run[|run| - 1];
    RunInv(cfg, run, |run| - 1);
    if Completed(cfg, s) {
      return run;
    }
    var step := Progress(cfg, s);
    if step.SendOnClosed? {
      NeverSendsOnClosed(cfg, s, step.caller);
    } else {
      StepDecreases(cfg, s, step);
    }
    ExtendRun(cfg, run, step);
    whole := EveryRunCompletes(cfg, run + [Apply(cfg, s, step)]);
  }
}
