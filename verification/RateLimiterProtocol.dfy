/** The rate limiter as a concurrent protocol: any number of callers of RoundTrip and the worker
    goroutines behind the per-key channels, interleaved at their synchronisation points. */
module RateLimiterProtocol {
  import opened Collections
  import opened RateLimiter

  /** KeyFunc, ConcurrentCallsLimit and the requests are fixed: caller c asks for keyOf[c]. */
  datatype Config = Config(limit: int, keyOf: seq<Key>)

  /** Where a caller stands in RoundTrip. Waiting remembers the worker that took the request. */
  datatype Pc =
    | Start
    | Sending(ch: nat)
    | Waiting(ch: nat, worker: nat)
    | Finished(result: Option<Reply>)

  /** A caller with its serialisedRequest: the wait group's counter and the result fields. */
  datatype Caller = Caller(pc: Pc, wg: int, result: Option<Reply>)

  /** One completed call into Transport. */
  datatype Call = Call(caller: nat, reply: Reply)

  datatype State = State(tables: Tables, callers: seq<Caller>, calls: seq<Call>)

  function Init(cfg: Config): State {
    State(EMPTY_TABLES, seq(|cfg.keyOf|, _ => Caller(Start, 1, None)), [])
  }

  datatype Step =
    | EnterRequestChan(caller: nat)
    | HandOver(caller: nat, worker: nat)
    | SendOnClosed(caller: nat)
    | TransportReturns(ch: nat, worker: nat, reply: Reply)
    | SignalDone(ch: nat, worker: nat)
    | LeaveDone(caller: nat)
    | WorkerExits(ch: nat, worker: nat)

  predicate HasWorker(s: State, ch: nat, w: nat) {
    ch < |s.tables.chans| && w < |s.tables.chans[ch].workers|
  }

  function WorkerAt(s: State, ch: nat, w: nat): Worker
    requires HasWorker(s, ch, w)
  {
    s.tables.chans[ch].workers[w]
  }

  predicate Enabled(cfg: Config, s: State, step: Step) {
    && !s.tables.panicked
    && |s.callers| == |cfg.keyOf|
    && match step {
         case EnterRequestChan(c) => c < |s.callers| && s.callers[c].pc.Start?
         case HandOver(c, w) =>
           && c < |s.callers| && s.callers[c].pc.Sending?
           && HasWorker(s, s.callers[c].pc.ch, w)
           && WorkerAt(s, s.callers[c].pc.ch, w).Idle?
           && !s.tables.chans[s.callers[c].pc.ch].closed
         case SendOnClosed(c) =>
           && c < |s.callers| && s.callers[c].pc.Sending?
           && s.callers[c].pc.ch < |s.tables.chans|
           && s.tables.chans[s.callers[c].pc.ch].closed
         case TransportReturns(ch, w, _) =>
           HasWorker(s, ch, w) && WorkerAt(s, ch, w).Calling? && WorkerAt(s, ch, w).caller < |s.callers|
         case SignalDone(ch, w) =>
           HasWorker(s, ch, w) && WorkerAt(s, ch, w).Replying? && WorkerAt(s, ch, w).caller < |s.callers|
         case LeaveDone(c) => c < |s.callers| && s.callers[c].pc.Waiting? && s.callers[c].wg == 0
         case WorkerExits(ch, w) =>
           HasWorker(s, ch, w) && WorkerAt(s, ch, w).Idle? && s.tables.chans[ch].closed
       }
  }

  function WithWorker(t: Tables, ch: nat, w: nat, worker: Worker): Tables
    requires ch < |t.chans| && w < |t.chans[ch].workers|
  {
    t.(chans := t.chans[ch := t.chans[ch].(workers := t.chans[ch].workers[w := worker])])
  }

  function WithCaller(s: State, c: nat, caller: Caller): State
    requires c < |s.callers|
  {
    s.(callers := s.callers[c := caller])
  }

  function Apply(cfg: Config, s: State, step: Step): State
    requires Enabled(cfg, s, step)
  {
    match step
    case EnterRequestChan(c) =>
      var t := Registered(cfg.limit, s.tables, cfg.keyOf[c]);
      WithCaller(s, c, s.callers[c].(pc := Sending(t.requestsChans[cfg.keyOf[c]]))).(tables := t)
    case HandOver(c, w) =>
      var ch := s.callers[c].pc.ch;
      WithCaller(s, c, s.callers[c].(pc := Waiting(ch, w)))
        .(tables := WithWorker(s.tables, ch, w, Calling(c)))
    case SendOnClosed(c) =>
      s.(tables := s.tables.(panicked := true))
    case TransportReturns(ch, w, reply) =>
      var c := WorkerAt(s, ch, w).caller;
      WithCaller(s, c, s.callers[c].(result := Some(reply)))
        .(tables := WithWorker(s.tables, ch, w, Replying(c)), calls := s.calls + [Call(c, reply)])
    case SignalDone(ch, w) =>
      var c := WorkerAt(s, ch, w).caller;
      WithCaller(s, c, s.callers[c].(wg := s.callers[c].wg - 1))
        .(tables := WithWorker(s.tables, ch, w, Idle).(panicked := s.callers[c].wg < 1))
    case LeaveDone(c) =>
      WithCaller(s, c, s.callers[c].(pc := Finished(s.callers[c].result)))
        .(tables := Released(s.tables, cfg.keyOf[c]))
    case WorkerExits(ch, w) =>
      s.(tables := WithWorker(s.tables, ch, w, Exited))
  }

  ghost predicate Next(cfg: Config, s: State, s': State) {
    exists step :: Enabled(cfg, s, step) && s' == Apply(cfg, s, step)
  }

  ghost predicate IsRun(cfg: Config, run: seq<State>) {
    && run != [] && run[0] == Init(cfg)
    && forall i :: 0 <= i < |run| - 1 ==> Next(cfg, run[i], run[i + 1])
  }

  ghost predicate Reachable(cfg: Config, s: State) {
    exists run :: IsRun(cfg, run) && run[|run| - 1] == s
  }

  // ---------------------------------------------------------------------------------------------
  // The inductive invariant
  // ---------------------------------------------------------------------------------------------

  /** Between getRequestChan and done. */
  predicate InFlightPc(pc: Pc) {
    pc.Sending? || pc.Waiting?
  }

  /** The callers of key k between getRequestChan and done. */
  function Holders(cfg: Config, s: State, k: Key): set<nat>
    requires |s.callers| == |cfg.keyOf|
  {
    set c: nat | c < |s.callers| && InFlightPc(s.callers[c].pc) && cfg.keyOf[c] == k
  }

  /** The replies Transport gave to the requests of caller c, in order. */
  function RepliesTo(calls: seq<Call>, c: nat): seq<Reply> {
    if calls == [] then []
    else
      var front := RepliesTo(calls[..|calls| - 1], c);
      var last := calls[|calls| - 1];
      if last.caller == c then front + [last.reply] else front
  }

  function Replies(result: Option<Reply>): seq<Reply> {
    match result case None => [] case Some(r) => [r]
  }

  /** The two maps have the same keys and point at exactly the open channels. */
  ghost predicate TablesInv(cfg: Config, t: Tables) {
    && !t.panicked
    && t.requestsChans.Keys == t.inFlights.Keys
    && (forall k :: k in t.requestsChans ==>
          t.requestsChans[k] < |t.chans| && t.chans[t.requestsChans[k]].key == k
          && !t.chans[t.requestsChans[k]].closed)
    && (forall ch :: 0 <= ch < |t.chans| ==>
          && |t.chans[ch].workers| == EffectiveLimit(cfg.limit)
          && (!t.chans[ch].closed ==>
                t.chans[ch].key in t.requestsChans && t.requestsChans[t.chans[ch].key] == ch))
  }

  /** inFlights counts the callers in flight, and is never left at zero. */
  ghost predicate CountInv(cfg: Config, s: State)
    requires |s.callers| == |cfg.keyOf|
  {
    forall k :: k in s.tables.inFlights ==>
      s.tables.inFlights[k] == |Holders(cfg, s, k)| && s.tables.inFlights[k] >= 1
  }

  ghost predicate CallerInv(cfg: Config, s: State, c: nat)
    requires c < |s.callers| == |cfg.keyOf|
  {
    var caller, k := s.callers[c], cfg.keyOf[c];
    && RepliesTo(s.calls, c) == Replies(caller.result)
    && (InFlightPc(caller.pc) ==> k in s.tables.requestsChans && s.tables.requestsChans[k] == caller.pc.ch)
    && (caller.pc.Start? || caller.pc.Sending? ==> caller.wg == 1 && caller.result.None?)
    && (caller.pc.Waiting? ==>
          (caller.wg == 0 && caller.result.Some?)
          || (&& caller.wg == 1
              && HasWorker(s, caller.pc.ch, caller.pc.worker)
              && WorkerAt(s, caller.pc.ch, caller.pc.worker)
                 == if caller.result.None? then Calling(c) else Replying(c)))
    && (caller.pc.Finished? ==> caller.result.Some? && caller.pc.result == caller.result)
  }

  /** A worker that serves a request serves a caller waiting for exactly this worker. */
  ghost predicate WorkerInv(s: State, ch: nat, w: nat)
    requires HasWorker(s, ch, w)
  {
    match WorkerAt(s, ch, w)
    case Idle => true
    case Exited => s.tables.chans[ch].closed
    case Calling(c) =>
      c < |s.callers| && s.callers[c].pc == Waiting(ch, w) && s.callers[c].wg == 1 && s.callers[c].result.None?
    case Replying(c) =>
      c < |s.callers| && s.callers[c].pc == Waiting(ch, w) && s.callers[c].wg == 1 && s.callers[c].result.Some?
  }

  ghost predicate Inv(cfg: Config, s: State) {
    && |s.callers| == |cfg.keyOf|
    && TablesInv(cfg, s.tables)
    && CountInv(cfg, s)
    && (forall c: nat :: c < |s.callers| ==> CallerInv(cfg, s, c))
    && (forall ch: nat, w: nat :: HasWorker(s, ch, w) ==> WorkerInv(s, ch, w))
  }

  lemma InitInv(cfg: Config)
    ensures Inv(cfg, Init(cfg))
  {}

  lemma {:induction false} RepliesToAppend(calls: seq<Call>, call: Call, c: nat)
    ensures RepliesTo(calls + [call], c)
         == RepliesTo(calls, c) + (if call.caller == c then [call.reply] else [])
  {
    assert (calls + [call])[..|calls + [call]| - 1] == calls;
  }

  /** Only the moving caller's key can gain or lose a holder. */
  lemma HoldersAfter(cfg: Config, s: State, s': State, c: nat, k: Key)
    requires |s.callers| == |s'.callers| == |cfg.keyOf| && c < |s.callers|
    requires forall c' :: 0 <= c' < |s.callers| && c' != c ==> s'.callers[c'] == s.callers[c']
    ensures cfg.keyOf[c] != k ==> Holders(cfg, s', k) == Holders(cfg, s, k)
    ensures cfg.keyOf[c] == k ==>
      Holders(cfg, s', k) == if InFlightPc(s'.callers[c].pc) then Holders(cfg, s, k) + {c} else Holders(cfg, s, k) - {c}
  {}

  lemma RegisteredKeepsTables(cfg: Config, t: Tables, k: Key)
    requires TablesInv(cfg, t)
    ensures TablesInv(cfg, Registered(cfg.limit, t, k))
  {}

  lemma NoHolderOfAbsentKey(cfg: Config, s: State, k: Key)
    requires Inv(cfg, s) && k !in s.tables.requestsChans
    ensures Holders(cfg, s, k) == {}
  {
    forall c: nat | c < |s.callers| ensures c !in Holders(cfg, s, k) { assert CallerInv(cfg, s, c); }
  }

  lemma EnterRequestChanKeepsCounts(cfg: Config, s: State, c: nat)
    requires Inv(cfg, s) && Enabled(cfg, s, EnterRequestChan(c))
    ensures CountInv(cfg, Apply(cfg, s, EnterRequestChan(c)))
  {
    var key, s' := cfg.keyOf[c], Apply(cfg, s, EnterRequestChan(c));
    if key !in s.tables.requestsChans {
      NoHolderOfAbsentKey(cfg, s, key);
    }
    forall k | k in s'.tables.inFlights
      ensures s'.tables.inFlights[k] == |Holders(cfg, s', k)| && s'.tables.inFlights[k] >= 1
    {
      HoldersAfter(cfg, s, s', c, k);
    }
  }

  lemma EnterRequestChanKeepsCaller(cfg: Config, s: State, c: nat, c': nat)
    requires Inv(cfg, s) && Enabled(cfg, s, EnterRequestChan(c)) && c' < |s.callers|
    ensures CallerInv(cfg, Apply(cfg, s, EnterRequestChan(c)), c')
  {
    assert CallerInv(cfg, s, c');
  }

  lemma EnterRequestChanKeepsWorker(cfg: Config, s: State, c: nat, ch: nat, w: nat)
    requires Inv(cfg, s) && Enabled(cfg, s, EnterRequestChan(c))
    requires HasWorker(Apply(cfg, s, EnterRequestChan(c)), ch, w)
    ensures WorkerInv(Apply(cfg, s, EnterRequestChan(c)), ch, w)
  {
    if ch < |s.tables.chans| {
      assert WorkerInv(s, ch, w);
    }
  }

  lemma EnterRequestChanKeepsInv(cfg: Config, s: State, c: nat)
    requires Inv(cfg, s) && Enabled(cfg, s, EnterRequestChan(c))
    ensures Inv(cfg, Apply(cfg, s, EnterRequestChan(c)))
  {
    var s' := Apply(cfg, s, EnterRequestChan(c));
    RegisteredKeepsTables(cfg, s.tables, cfg.keyOf[c]);
    EnterRequestChanKeepsCounts(cfg, s, c);
    forall c': nat | c' < |s'.callers| ensures CallerInv(cfg, s', c') {
      EnterRequestChanKeepsCaller(cfg, s, c, c');
    }
    forall ch: nat, w: nat | HasWorker(s', ch, w) ensures WorkerInv(s', ch, w) {
      EnterRequestChanKeepsWorker(cfg, s, c, ch, w);
    }
  }

  lemma HandOverKeepsCaller(cfg: Config, s: State, c: nat, w: nat, c': nat)
    requires Inv(cfg, s) && Enabled(cfg, s, HandOver(c, w)) && c' < |s.callers|
    ensures CallerInv(cfg, Apply(cfg, s, HandOver(c, w)), c')
  {
    assert CallerInv(cfg, s, c');
  }

  lemma HandOverKeepsWorker(cfg: Config, s: State, c: nat, w: nat, ch': nat, w': nat)
    requires Inv(cfg, s) && Enabled(cfg, s, HandOver(c, w)) && HasWorker(s, ch', w')
    ensures HasWorker(Apply(cfg, s, HandOver(c, w)), ch', w') && WorkerInv(Apply(cfg, s, HandOver(c, w)), ch', w')
  {
    assert CallerInv(cfg, s, c);
    assert WorkerInv(s, ch', w');
  }

  lemma HandOverKeepsInv(cfg: Config, s: State, c: nat, w: nat)
    requires Inv(cfg, s) && Enabled(cfg, s, HandOver(c, w))
    ensures Inv(cfg, Apply(cfg, s, HandOver(c, w)))
  {
    var s' := Apply(cfg, s, HandOver(c, w));
    forall k ensures Holders(cfg, s', k) == Holders(cfg, s, k) {}
    forall c': nat | c' < |s'.callers| ensures CallerInv(cfg, s', c') {
      HandOverKeepsCaller(cfg, s, c, w, c');
    }
    forall ch': nat, w': nat | HasWorker(s', ch', w') ensures WorkerInv(s', ch', w') {
      HandOverKeepsWorker(cfg, s, c, w, ch', w');
    }
  }

  lemma TransportReturnsKeepsCaller(cfg: Config, s: State, ch: nat, w: nat, reply: Reply, c': nat)
    requires Inv(cfg, s) && Enabled(cfg, s, TransportReturns(ch, w, reply)) && c' < |s.callers|
    ensures CallerInv(cfg, Apply(cfg, s, TransportReturns(ch, w, reply)), c')
  {
    assert WorkerInv(s, ch, w);
    RepliesToAppend(s.calls, Call(WorkerAt(s, ch, w).caller, reply), c');
    assert CallerInv(cfg, s, c');
  }

  lemma TransportReturnsKeepsWorker(cfg: Config, s: State, ch: nat, w: nat, reply: Reply, ch': nat, w': nat)
    requires Inv(cfg, s) && Enabled(cfg, s, TransportReturns(ch, w, reply)) && HasWorker(s, ch', w')
    ensures HasWorker(Apply(cfg, s, TransportReturns(ch, w, reply)), ch', w')
    ensures WorkerInv(Apply(cfg, s, TransportReturns(ch, w, reply)), ch', w')
  {
    assert WorkerInv(s, ch, w);
    assert WorkerInv(s, ch', w');
  }

  lemma TransportReturnsKeepsInv(cfg: Config, s: State, ch: nat, w: nat, reply: Reply)
    requires Inv(cfg, s) && Enabled(cfg, s, TransportReturns(ch, w, reply))
    ensures Inv(cfg, Apply(cfg, s, TransportReturns(ch, w, reply)))
  {
    assert WorkerInv(s, ch, w);
    var s' := Apply(cfg, s, TransportReturns(ch, w, reply));
    forall k ensures Holders(cfg, s', k) == Holders(cfg, s, k) {}
    forall c': nat | c' < |s'.callers| ensures CallerInv(cfg, s', c') {
      TransportReturnsKeepsCaller(cfg, s, ch, w, reply, c');
    }
    forall ch': nat, w': nat | HasWorker(s', ch', w') ensures WorkerInv(s', ch', w') {
      TransportReturnsKeepsWorker(cfg, s, ch, w, reply, ch', w');
    }
  }

  lemma SignalDoneKeepsCaller(cfg: Config, s: State, ch: nat, w: nat, c': nat)
    requires Inv(cfg, s) && Enabled(cfg, s, SignalDone(ch, w)) && c' < |s.callers|
    ensures CallerInv(cfg, Apply(cfg, s, SignalDone(ch, w)), c')
  {
    assert WorkerInv(s, ch, w);
    assert CallerInv(cfg, s, c');
  }

  lemma SignalDoneKeepsWorker(cfg: Config, s: State, ch: nat, w: nat, ch': nat, w': nat)
    requires Inv(cfg, s) && Enabled(cfg, s, SignalDone(ch, w)) && HasWorker(s, ch', w')
    ensures HasWorker(Apply(cfg, s, SignalDone(ch, w)), ch', w') && WorkerInv(Apply(cfg, s, SignalDone(ch, w)), ch', w')
  {
    assert WorkerInv(s, ch, w);
    assert WorkerInv(s, ch', w');
  }

  lemma SignalDoneKeepsInv(cfg: Config, s: State, ch: nat, w: nat)
    requires Inv(cfg, s) && Enabled(cfg, s, SignalDone(ch, w))
    ensures Inv(cfg, Apply(cfg, s, SignalDone(ch, w)))
  {
    assert WorkerInv(s, ch, w);
    var s' := Apply(cfg, s, SignalDone(ch, w));
    forall k ensures Holders(cfg, s', k) == Holders(cfg, s, k) {}
    forall c': nat | c' < |s'.callers| ensures CallerInv(cfg, s', c') {
      SignalDoneKeepsCaller(cfg, s, ch, w, c');
    }
    forall ch': nat, w': nat | HasWorker(s', ch', w') ensures WorkerInv(s', ch', w') {
      SignalDoneKeepsWorker(cfg, s, ch, w, ch', w');
    }
  }

  lemma ReleasedKeepsTables(cfg: Config, t: Tables, k: Key)
    requires TablesInv(cfg, t) && k in t.requestsChans
    ensures TablesInv(cfg, Released(t, k))
  {}

  /** A leaving caller is counted, and the last one is alone. */
  lemma LeavingIsCounted(cfg: Config, s: State, c: nat)
    requires Inv(cfg, s) && Enabled(cfg, s, LeaveDone(c))
    ensures cfg.keyOf[c] in s.tables.requestsChans && c in Holders(cfg, s, cfg.keyOf[c])
    ensures s.tables.inFlights[cfg.keyOf[c]] == 1 ==> Holders(cfg, s, cfg.keyOf[c]) == {c}
  {
    var holders := Holders(cfg, s, cfg.keyOf[c]);
    assert CallerInv(cfg, s, c);
    if s.tables.inFlights[cfg.keyOf[c]] == 1 {
      forall c' | c' in holders ensures c' == c {
        SubsetSize({c, c'}, holders);
      }
    }
  }

  lemma LeaveDoneKeepsCount(cfg: Config, s: State, c: nat, k: Key)
    requires Inv(cfg, s) && Enabled(cfg, s, LeaveDone(c)) && k in Apply(cfg, s, LeaveDone(c)).tables.inFlights
    ensures var s' := Apply(cfg, s, LeaveDone(c));
            s'.tables.inFlights[k] == |Holders(cfg, s', k)| && s'.tables.inFlights[k] >= 1
  {
    LeavingIsCounted(cfg, s, c);
    HoldersAfter(cfg, s, Apply(cfg, s, LeaveDone(c)), c, k);
  }

  lemma LeaveDoneKeepsCounts(cfg: Config, s: State, c: nat)
    requires Inv(cfg, s) && Enabled(cfg, s, LeaveDone(c))
    ensures CountInv(cfg, Apply(cfg, s, LeaveDone(c)))
  {
    var s' := Apply(cfg, s, LeaveDone(c));
    forall k | k in s'.tables.inFlights
      ensures s'.tables.inFlights[k] == |Holders(cfg, s', k)| && s'.tables.inFlights[k] >= 1
    {
      LeaveDoneKeepsCount(cfg, s, c, k);
    }
  }

  lemma LeaveDoneKeepsCaller(cfg: Config, s: State, c: nat, c': nat)
    requires Inv(cfg, s) && Enabled(cfg, s, LeaveDone(c)) && c' < |s.callers|
    ensures CallerInv(cfg, Apply(cfg, s, LeaveDone(c)), c')
  {
    LeavingIsCounted(cfg, s, c);
    assert CallerInv(cfg, s, c');
    assert c' in Holders(cfg, s, cfg.keyOf[c]) <==> InFlightPc(s.callers[c'].pc) && cfg.keyOf[c'] == cfg.keyOf[c];
  }

  lemma LeaveDoneKeepsWorker(cfg: Config, s: State, c: nat, ch: nat, w: nat)
    requires Inv(cfg, s) && Enabled(cfg, s, LeaveDone(c))
    requires HasWorker(Apply(cfg, s, LeaveDone(c)), ch, w)
    ensures WorkerInv(Apply(cfg, s, LeaveDone(c)), ch, w)
  {
    LeavingIsCounted(cfg, s, c);
    assert WorkerInv(s, ch, w);
  }

  lemma LeaveDoneKeepsInv(cfg: Config, s: State, c: nat)
    requires Inv(cfg, s) && Enabled(cfg, s, LeaveDone(c))
    ensures Inv(cfg, Apply(cfg, s, LeaveDone(c)))
  {
    var key, s' := cfg.keyOf[c], Apply(cfg, s, LeaveDone(c));
    LeavingIsCounted(cfg, s, c);
    LeaveDoneKeepsCounts(cfg, s, c);
    ReleasedKeepsTables(cfg, s.tables, key);
    forall c': nat | c' < |s'.callers| ensures CallerInv(cfg, s', c') {
      LeaveDoneKeepsCaller(cfg, s, c, c');
    }
    forall ch: nat, w: nat | HasWorker(s', ch, w) ensures WorkerInv(s', ch, w) {
      LeaveDoneKeepsWorker(cfg, s, c, ch, w);
    }
  }

  lemma WorkerExitsKeepsInv(cfg: Config, s: State, ch: nat, w: nat)
    requires Inv(cfg, s) && Enabled(cfg, s, WorkerExits(ch, w))
    ensures Inv(cfg, Apply(cfg, s, WorkerExits(ch, w)))
  {
    var s' := Apply(cfg, s, WorkerExits(ch, w));
    forall k ensures Holders(cfg, s', k) == Holders(cfg, s, k) {}
    forall c': nat | c' < |s'.callers| ensures CallerInv(cfg, s', c') { assert CallerInv(cfg, s, c'); }
    forall ch': nat, w': nat | HasWorker(s', ch', w') ensures WorkerInv(s', ch', w') { assert WorkerInv(s, ch', w'); }
  }

  /** No caller ever finds its channel closed between getRequestChan and the send. */
  lemma NeverSendsOnClosed(cfg: Config, s: State, c: nat)
    requires Inv(cfg, s)
    ensures !Enabled(cfg, s, SendOnClosed(c))
  {
    if c < |s.callers| {
      assert CallerInv(cfg, s, c);
    }
  }

  lemma StepKeepsInv(cfg: Config, s: State, step: Step)
    requires Inv(cfg, s) && Enabled(cfg, s, step)
    ensures Inv(cfg, Apply(cfg, s, step))
  {
    match step
    case EnterRequestChan(c) => EnterRequestChanKeepsInv(cfg, s, c);
    case HandOver(c, w) => HandOverKeepsInv(cfg, s, c, w);
    case SendOnClosed(c) => NeverSendsOnClosed(cfg, s, c);
    case TransportReturns(ch, w, reply) => TransportReturnsKeepsInv(cfg, s, ch, w, reply);
    case SignalDone(ch, w) => SignalDoneKeepsInv(cfg, s, ch, w);
    case LeaveDone(c) => LeaveDoneKeepsInv(cfg, s, c);
    case WorkerExits(ch, w) => WorkerExitsKeepsInv(cfg, s, ch, w);
  }
}
