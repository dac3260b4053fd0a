/** The WebSocket publish/subscribe hub (internal/api/websocket.go).

    Four kinds of goroutine interleave: the hub loop, which alone changes the client map and
    closes channels under the write lock; publishers, which walk the map under a read lock; and
    each client's reader and writer. A run is a list of their atomic steps. Sending on a closed
    channel or closing one twice sets `panicked`. */
module WebSocketHub {

  const CAPACITY := 256

  type ClientId = nat

  /** A message carries the number of the Publish call that made it. */
  datatype Msg = Msg(pub: nat, topic: string, data: string)

  /** `open` and `buffer` are the client's channel; `entered` says that the hub put the client
      into its map at some point; `delivered` is what reached the connection. */
  datatype Client = Client(
    topics: set<string>, buffer: seq<Msg>, open: bool, entered: bool, reading: bool, writing: bool,
    delivered: seq<Msg>)

  const FRESH := Client({}, [], true, false, true, true, [])

  /** The hub loop between taking a request from its channel and finishing it. */
  datatype Hub = Idle | Inserting(client: ClientId) | Removing(client: ClientId)

  /** A Publish call inside its loop: the clients it has not visited yet. */
  datatype Publication = Publication(msg: Msg, pending: set<ClientId>)

  datatype State = State(
    clients: map<ClientId, Client>, members: set<ClientId>, hub: Hub,
    active: map<nat, Publication>, used: set<nat>, panicked: bool)

  const START := State(map[], {}, Idle, map[], {}, false)

  datatype Event =
    | Connect(client: ClientId)
    | Insert(client: ClientId)
    | Leave(client: ClientId)
    | Remove(client: ClientId)
    | Subscribe(client: ClientId, topics: set<string>)
    | Unsubscribe(client: ClientId, topics: set<string>)
    | Publish(pub: nat, topic: string, data: string)
    | Offer(pub: nat, client: ClientId)
    | Finish(pub: nat)
    | Write(client: ClientId, ok: bool)
    | WriterDone(client: ClientId)

  /** Insert and Remove need the write lock, so no publisher may be active; Connect and Leave
      hand over to the hub loop, which must be waiting. */
  ghost predicate Enabled(s: State, e: Event) {
    match e
    case Connect(c) => c !in s.clients && s.hub.Idle?
    case Insert(c) => s.hub == Inserting(c) && s.active == map[]
    case Leave(c) => c in s.clients && s.clients[c].reading && s.hub.Idle?
    case Remove(c) => s.hub == Removing(c) && s.active == map[]
    case Subscribe(c, _) => c in s.clients && s.clients[c].reading
    case Unsubscribe(c, _) => c in s.clients && s.clients[c].reading
    case Publish(p, _, _) => p !in s.used
    case Offer(p, c) => p in s.active && c in s.active[p].pending
    case Finish(p) => p in s.active && s.active[p].pending == {}
    case Write(c, _) => c in s.clients && s.clients[c].writing && s.clients[c].buffer != []
    case WriterDone(c) =>
      c in s.clients && s.clients[c].writing && s.clients[c].buffer == [] && !s.clients[c].open
  }

  /** Everyone gets "status"; other topics go to their subscribers. */
  predicate Wants(cl: Client, topic: string) {
    topic == "status" || topic in cl.topics
  }

  ghost function Set(s: State, c: ClientId, cl: Client): State {
    s.(clients := s.clients[c := cl])
  }

  /** The non-blocking send of one message to one client. */
  ghost function Send(s: State, c: ClientId, m: Msg): State {
    if c !in s.clients || !Wants(s.clients[c], m.topic) then s
    else if !s.clients[c].open then s.(panicked := true)
    else if |s.clients[c].buffer| >= CAPACITY then s
    else Set(s, c, s.clients[c].(buffer := s.clients[c].buffer + [m]))
  }

  ghost function Step(s: State, e: Event): State
    requires Enabled(s, e)
  {
    match e
    case Connect(c) => Set(s, c, FRESH).(hub := Inserting(c))
    case Insert(c) =>
      var s' := s.(members := s.members + {c}, hub := Idle);
      if c in s.clients then Set(s', c, s.clients[c].(entered := true)) else s'
    case Leave(c) => Set(s, c, s.clients[c].(reading := false)).(hub := Removing(c))
    case Remove(c) =>
      if c !in s.members then s.(hub := Idle)
      else
        var s' := s.(members := s.members - {c}, hub := Idle);
        if c !in s.clients || !s.clients[c].open then s'.(panicked := true)
        else Set(s', c, s.clients[c].(open := false))
    case Subscribe(c, ts) => Set(s, c, s.clients[c].(topics := s.clients[c].topics + ts))
    case Unsubscribe(c, ts) => Set(s, c, s.clients[c].(topics := s.clients[c].topics - ts))
    case Publish(p, topic, data) =>
      s.(active := s.active[p := Publication(Msg(p, topic, data), s.members)], used := s.used + {p})
    case Offer(p, c) =>
      var pub := s.active[p];
      Send(s, c, pub.msg).(active := s.active[p := pub.(pending := pub.pending - {c})])
    case Finish(p) => s.(active := s.active - {p})
    case Write(c, ok) =>
      var cl := s.clients[c];
      var taken := cl.(buffer := cl.buffer[1..]);
      Set(s, c, if ok then taken.(delivered := cl.delivered + [cl.buffer[0]])
                else taken.(writing := false))
    case WriterDone(c) => Set(s, c, s.clients[c].(writing := false))
  }

  ghost predicate Legal(run: seq<Event>, n: nat)
    requires n <= |run|
    decreases n, 0
  {
    n == 0 || (Legal(run, n - 1) && Enabled(After(run, n - 1), run[n - 1]))
  }

  ghost function After(run: seq<Event>, n: nat): State
    requires n <= |run| && Legal(run, n)
    decreases n, 1
  {
    if n == 0 then START else Step(After(run, n - 1), run[n - 1])
  }

  // ----- Safety -----

  ghost predicate ClientOk(s: State, c: ClientId)
    requires c in s.clients
  {
    var cl := s.clients[c];
    |cl.buffer| <= CAPACITY
    && (if cl.entered then cl.open <==> c in s.members else cl.open && c !in s.members)
    && (!cl.entered <==> s.hub == Inserting(c))
    && (cl.entered && !cl.reading ==> (c in s.members <==> s.hub == Removing(c)))
    && (!cl.entered || cl.reading ==> s.hub != Removing(c))
    && (cl.entered && cl.reading ==> c in s.members)
    && (!cl.reading ==> cl.entered)
  }

  /** Channels are open exactly while their client is in the map, buffers are bounded, nobody has
      sent on or closed a closed channel, and active publishers only have members to visit. */
  ghost predicate Safe(s: State) {
    !s.panicked
    && (forall c :: c in s.members ==> c in s.clients && s.clients[c].entered)
    && (forall c :: c in s.clients ==> ClientOk(s, c))
    && (forall p :: p in s.active ==> s.active[p].pending <= s.members)
    && (s.hub != Idle ==> s.hub.client in s.clients)
  }

  lemma StepKeepsSafe(s: State, e: Event)
    requires Safe(s) && Enabled(s, e)
    ensures Safe(Step(s, e))
  {
    if e.Offer? {
      OfferKeepsSafe(s, e.pub, e.client);
    } else {
      var s' := Step(s, e);
      forall c | c in s'.clients
        ensures ClientOk(s', c)
      {
        assert c in s.clients ==> ClientOk(s, c);
      }
    }
  }

  lemma OfferKeepsSafe(s: State, p: nat, c: ClientId)
    requires Safe(s) && Enabled(s, Offer(p, c))
    ensures Safe(Step(s, Offer(p, c)))
  {
  }

  lemma {:induction false} HubIsSafe(run: seq<Event>, n: nat)
    requires n <= |run| && Legal(run, n)
    ensures Safe(After(run, n))
    ensures forall c :: c in After(run, n).clients ==> |After(run, n).clients[c].buffer| <= 256
  {
    if n > 0 {
      HubIsSafe(run, n - 1);
      StepKeepsSafe(After(run, n - 1), run[n - 1]);
    }
    assert forall c :: c in After(run, n).clients ==> ClientOk(After(run, n), c);
  }

  // ----- Delivery -----

  /** The send of this step puts a message into `c`'s channel. */
  ghost predicate Accepts(s: State, e: Event, c: ClientId) {
    e.Offer? && e.client == c && Enabled(s, e) && c in s.clients
    && Wants(s.clients[c], s.active[e.pub].msg.topic)
    && s.clients[c].open && |s.clients[c].buffer| < CAPACITY
  }

  /** Everything put into `c`'s channel during the first `n` steps, in order. */
  ghost function Enqueued(run: seq<Event>, n: nat, c: ClientId): seq<Msg>
    requires n <= |run| && Legal(run, n)
  {
    if n == 0 then []
    else
      var s, e := After(run, n - 1), run[n - 1];
      Enqueued(run, n - 1, c) + (if Accepts(s, e, c) then [s.active[e.pub].msg] else [])
  }

  /** A channel is a queue: the buffer is the unread end of what was enqueued, and what reached
      the connection is its beginning, short of at most the one message whose write failed. */
  ghost predicate InStep(log: seq<Msg>, cl: Client) {
    var read := |log| - |cl.buffer|;
    0 <= read && cl.buffer == log[read..]
    && cl.delivered <= log && read - 1 <= |cl.delivered| <= read
    && (cl.writing ==> |cl.delivered| == read)
  }

  /** Steps that are neither an accepted send to `c` nor its writer's leave the queue alone. */
  lemma StepFrame(s: State, e: Event, c: ClientId)
    requires Enabled(s, e) && c in s.clients && !Accepts(s, e, c)
    requires !(e.Write? && e.client == c) && !(e.WriterDone? && e.client == c)
    ensures c in Step(s, e).clients
    ensures var cl, cl' := s.clients[c], Step(s, e).clients[c];
            cl'.buffer == cl.buffer && cl'.delivered == cl.delivered && cl'.writing == cl.writing
  {
  }

  lemma SendInStep(s: State, e: Event, c: ClientId, log: seq<Msg>)
    requires Enabled(s, e) && c in s.clients && InStep(log, s.clients[c]) && Accepts(s, e, c)
    ensures c in Step(s, e).clients
    ensures InStep(log + [s.active[e.pub].msg], Step(s, e).clients[c])
  {
  }

  lemma WriteInStep(log: seq<Msg>, cl: Client, ok: bool)
    requires InStep(log, cl) && cl.writing && cl.buffer != []
    ensures InStep(log, if ok then cl.(buffer := cl.buffer[1..],
                                       delivered := cl.delivered + [cl.buffer[0]])
                        else cl.(buffer := cl.buffer[1..], writing := false))
  {
  }

  lemma StepInStep(s: State, e: Event, c: ClientId, log: seq<Msg>)
    requires Enabled(s, e) && c in s.clients && InStep(log, s.clients[c]) && !Accepts(s, e, c)
    ensures c in Step(s, e).clients && InStep(log, Step(s, e).clients[c])
  {
    if e.Write? && e.client == c {
      WriteInStep(log, s.clients[c], e.ok);
    } else if !(e.WriterDone? && e.client == c) {
      StepFrame(s, e, c);
    }
  }

  lemma EnqueuedStep(run: seq<Event>, n: nat, c: ClientId)
    requires n < |run| && Legal(run, n + 1)
    ensures var s := After(run, n);
            Enqueued(run, n + 1, c) == LogAfter(s, run[n], c, Enqueued(run, n, c))
  {
    assert Enqueued(run, n, c) + [] == Enqueued(run, n, c);
  }

  /** The log after a step: one message longer when the step is an accepted send to `c`. */
  ghost function LogAfter(s: State, e: Event, c: ClientId, log: seq<Msg>): seq<Msg> {
    if Accepts(s, e, c) then log + [s.active[e.pub].msg] else log
  }

  lemma QueueStep(s: State, e: Event, c: ClientId, log: seq<Msg>)
    requires Enabled(s, e) && c in s.clients && InStep(log, s.clients[c])
    ensures c in Step(s, e).clients && InStep(LogAfter(s, e, c, log), Step(s, e).clients[c])
  {
    if Accepts(s, e, c) {
      SendInStep(s, e, c, log);
    } else {
      StepInStep(s, e, c, log);
    }
  }

  /** A client's queue is in step with its log; before it connects nothing is logged. */
  ghost predicate QueueOk(s: State, c: ClientId, log: seq<Msg>) {
    if c in s.clients then InStep(log, s.clients[c]) else log == []
  }

  lemma StepKeepsQueue(s: State, e: Event, c: ClientId, log: seq<Msg>)
    requires Enabled(s, e) && QueueOk(s, c, log)
    ensures QueueOk(Step(s, e), c, LogAfter(s, e, c, log))
  {
    if c in s.clients {
      QueueStep(s, e, c, log);
    }
  }

  lemma {:induction false} QueueStaysOk(run: seq<Event>, n: nat, c: ClientId)
    requires n <= |run| && Legal(run, n)
    ensures QueueOk(After(run, n), c, Enqueued(run, n, c))
  {
    if n > 0 {
      QueueStaysOk(run, n - 1, c);
      StepKeepsQueue(After(run, n - 1), run[n - 1], c, Enqueued(run, n - 1, c));
      EnqueuedStep(run, n - 1, c);
    }
  }

  /** Over every run, messages leave in the order in which they were enqueued. */
  lemma DeliveredInOrder(run: seq<Event>, n: nat, c: ClientId)
    requires n <= |run| && Legal(run, n) && c in After(run, n).clients
    ensures InStep(Enqueued(run, n, c), After(run, n).clients[c])
  {
    QueueStaysOk(run, n, c);
  }

  /** Publications still to be offered to `c` have not been enqueued for it. */
  ghost predicate Unsent(s: State, log: seq<Msg>, c: ClientId) {
    (forall p :: p in s.active ==> p in s.used && s.active[p].msg.pub == p)
    && (forall i :: 0 <= i < |log| ==>
          log[i].pub in s.used
          && (log[i].pub in s.active ==> c !in s.active[log[i].pub].pending))
    && (forall i, j :: 0 <= i < j < |log| ==> log[i].pub != log[j].pub)
  }

  /** A step opens at most one new publication and never adds to what one has to visit. */
  lemma StepActive(s: State, e: Event)
    requires Enabled(s, e)
    ensures var s' := Step(s, e);
            s.used <= s'.used
            && (forall p :: p in s'.active ==>
                  (p in s.active && s'.active[p].msg == s.active[p].msg
                   && s'.active[p].pending <= s.active[p].pending)
                  || (e.Publish? && e.pub == p && p !in s.used && p in s'.used
                      && s'.active[p].msg.pub == p))
  {
  }

  lemma StepUnsent(s: State, e: Event, c: ClientId, log: seq<Msg>)
    requires Enabled(s, e) && Unsent(s, log, c)
    ensures Unsent(Step(s, e), if Accepts(s, e, c) then log + [s.active[e.pub].msg] else log, c)
  {
  }

  lemma {:induction false} EnqueuedAtMostOnce(run: seq<Event>, n: nat, c: ClientId)
    requires n <= |run| && Legal(run, n)
    ensures Unsent(After(run, n), Enqueued(run, n, c), c)
  {
    if n > 0 {
      EnqueuedAtMostOnce(run, n - 1, c);
      StepUnsent(After(run, n - 1), run[n - 1], c, Enqueued(run, n - 1, c));
      assert Enqueued(run, n - 1, c) + [] == Enqueued(run, n - 1, c);
    }
  }

  /** A client receives each published message at most once. */
  lemma DeliveredAtMostOnce(run: seq<Event>, n: nat, c: ClientId)
    requires n <= |run| && Legal(run, n) && c in After(run, n).clients
    ensures var got := After(run, n).clients[c].delivered;
            forall i, j :: 0 <= i < j < |got| ==> got[i].pub != got[j].pub
  {
    EnqueuedAtMostOnce(run, n, c);
    DeliveredInOrder(run, n, c);
  }

  /** At step `i` the message was offered to `c`, who was in the map and wanted its topic. */
  ghost predicate SentAt(run: seq<Event>, i: nat, c: ClientId, m: Msg) {
    i < |run| && Legal(run, i) && run[i] == Offer(m.pub, c)
    && c in After(run, i).members && c in After(run, i).clients
    && Wants(After(run, i).clients[c], m.topic)
  }

  lemma {:induction false} EnqueuedWhileWanted(run: seq<Event>, n: nat, c: ClientId, m: Msg)
    requires n <= |run| && Legal(run, n) && m in Enqueued(run, n, c)
    ensures exists i: nat :: i < n && SentAt(run, i, c, m)
  {
    if m in Enqueued(run, n - 1, c) {
      EnqueuedWhileWanted(run, n - 1, c, m);
    } else {
      HubIsSafe(run, n - 1);
      EnqueuedAtMostOnce(run, n - 1, c);
      assert SentAt(run, n - 1, c, m);
    }
  }

  // ----- Subscriptions and publications, read off the run -----

  ghost predicate Subscribes(e: Event, c: ClientId, topic: string) {
    e.Subscribe? && e.client == c && topic in e.topics
  }

  ghost predicate Unsubscribes(e: Event, c: ClientId, topic: string) {
    e.Unsubscribe? && e.client == c && topic in e.topics
  }

  /** Step `i` subscribed the client to the topic, and nothing took that back before step `n`. */
  ghost predicate SubscribedSince(run: seq<Event>, i: int, n: nat, c: ClientId, topic: string)
    requires n <= |run|
  {
    0 <= i < n && Subscribes(run[i], c, topic)
    && forall j :: i < j < n ==> !Unsubscribes(run[j], c, topic)
  }

  ghost predicate Subscribed(run: seq<Event>, n: nat, c: ClientId, topic: string)
    requires n <= |run|
  {
    exists i :: SubscribedSince(run, i, n, c, topic)
  }

  lemma SubscribedStep(run: seq<Event>, n: nat, c: ClientId, topic: string)
    requires n < |run|
    ensures Subscribed(run, n + 1, c, topic)
        <==> Subscribes(run[n], c, topic)
             || (Subscribed(run, n, c, topic) && !Unsubscribes(run[n], c, topic))
  {
    if Subscribes(run[n], c, topic) {
      assert SubscribedSince(run, n, n + 1, c, topic);
    }
    if Subscribed(run, n, c, topic) && !Unsubscribes(run[n], c, topic) {
      var i :| SubscribedSince(run, i, n, c, topic);
      assert SubscribedSince(run, i, n + 1, c, topic);
    }
    if Subscribed(run, n + 1, c, topic) && !Subscribes(run[n], c, topic) {
      var i :| SubscribedSince(run, i, n + 1, c, topic);
      assert SubscribedSince(run, i, n, c, topic);
    }
  }

  ghost predicate Holds(s: State, c: ClientId, topic: string) {
    c in s.clients && topic in s.clients[c].topics
  }

  lemma HoldsStep(s: State, e: Event, c: ClientId, topic: string)
    requires Enabled(s, e)
    ensures Holds(Step(s, e), c, topic)
        <==> Subscribes(e, c, topic) || (Holds(s, c, topic) && !Unsubscribes(e, c, topic))
  {
  }

  /** Over every run, a client holds exactly the topics it subscribed to and did not unsubscribe
      from since. */
  lemma {:induction false} HeldIffSubscribed(run: seq<Event>, n: nat, c: ClientId, topic: string)
    requires n <= |run| && Legal(run, n)
    ensures Holds(After(run, n), c, topic) <==> Subscribed(run, n, c, topic)
  {
    if n > 0 {
      HeldIffSubscribed(run, n - 1, c, topic);
      HoldsStep(After(run, n - 1), run[n - 1], c, topic);
      SubscribedStep(run, n - 1, c, topic);
    }
  }

  lemma StepPublications(s: State, e: Event, p: nat)
    requires Enabled(s, e) && p in Step(s, e).active
    ensures (p in s.active && Step(s, e).active[p].msg == s.active[p].msg)
            || (e.Publish? && e.pub == p && Step(s, e).active[p].msg == Msg(p, e.topic, e.data))
  {
  }

  /** An active publication carries the topic and data it was published with. */
  lemma {:induction false} ActiveWasPublished(run: seq<Event>, n: nat, p: nat)
    requires n <= |run| && Legal(run, n) && p in After(run, n).active
    ensures var m := After(run, n).active[p].msg;
            m.pub == p && exists i :: 0 <= i < n && run[i] == Publish(p, m.topic, m.data)
  {
    StepPublications(After(run, n - 1), run[n - 1], p);
    if p in After(run, n - 1).active
       && After(run, n).active[p].msg == After(run, n - 1).active[p].msg {
      ActiveWasPublished(run, n - 1, p);
    } else {
      assert run[n - 1] == Publish(p, run[n - 1].topic, run[n - 1].data);
    }
  }

  lemma {:induction false} EnqueuedWasPublished(run: seq<Event>, n: nat, c: ClientId, m: Msg)
    requires n <= |run| && Legal(run, n) && m in Enqueued(run, n, c)
    ensures exists i :: 0 <= i < n && run[i] == Publish(m.pub, m.topic, m.data)
  {
    if m in Enqueued(run, n - 1, c) {
      EnqueuedWasPublished(run, n - 1, c, m);
    } else {
      ActiveWasPublished(run, n - 1, run[n - 1].pub);
    }
  }

  /** What a client receives was published with that topic and data, and sent to it while it was in
      the map; its topic was "status" or one the client was subscribed to at that moment. */
  lemma DeliveredOnlySubscribed(run: seq<Event>, n: nat, c: ClientId, m: Msg)
    requires n <= |run| && Legal(run, n) && c in After(run, n).clients
    requires m in After(run, n).clients[c].delivered
    ensures exists i: nat :: i < n && SentAt(run, i, c, m)
                             && (m.topic == "status" || Subscribed(run, i, c, m.topic))
    ensures exists i :: 0 <= i < n && run[i] == Publish(m.pub, m.topic, m.data)
  {
    DeliveredInOrder(run, n, c);
    EnqueuedWhileWanted(run, n, c, m);
    EnqueuedWasPublished(run, n, c, m);
    var i: nat :| i < n && SentAt(run, i, c, m);
    HeldIffSubscribed(run, i, c, m.topic);
  }

  // ----- Every subscriber gets its offer -----

  /** How often the publication was offered to `c` in steps [from, to). */
  ghost function Offers(run: seq<Event>, from: nat, to: nat, p: nat, c: ClientId): nat
    requires to <= |run|
  {
    if to <= from then 0
    else Offers(run, from, to - 1, p, c) + (if run[to - 1] == Offer(p, c) then 1 else 0)
  }

  lemma {:induction false} UsedStaysUsed(run: seq<Event>, m: nat, n: nat, p: nat)
    requires m <= n <= |run| && Legal(run, n) && Legal(run, m) && p in After(run, m).used
    ensures p in After(run, n).used
  {
    if m < n {
      UsedStaysUsed(run, m, n - 1, p);
      StepActive(After(run, n - 1), run[n - 1]);
    }
  }

  lemma {:induction false} LegalPrefix(run: seq<Event>, m: nat, n: nat)
    requires m <= n <= |run| && Legal(run, n)
    ensures Legal(run, m)
  {
    if m < n {
      LegalPrefix(run, m, n - 1);
    }
  }

  /** What one step does to a publication that stays active. */
  lemma StepPending(s: State, e: Event, p: nat, c: ClientId)
    requires Enabled(s, e) && p in s.used && p in Step(s, e).active
    ensures p in s.active
    ensures e == Offer(p, c) ==> c in s.active[p].pending && c !in Step(s, e).active[p].pending
    ensures e != Offer(p, c) ==>
              (c in Step(s, e).active[p].pending <==> c in s.active[p].pending)
  {
  }

  /** While a publication is active, a client that was in the map when it began is either still to
      be visited or was offered the message exactly once. */
  lemma {:induction false} PendingOrOffered(run: seq<Event>, i: nat, n: nat, c: ClientId)
    requires i < n <= |run| && Legal(run, n) && Legal(run, i) && run[i].Publish?
    requires run[i].pub in After(run, n).active && c in After(run, i).members
    ensures Offers(run, i, n, run[i].pub, c)
         == if c in After(run, n).active[run[i].pub].pending then 0 else 1
  {
    var p := run[i].pub;
    if n == i + 1 {
      assert Offers(run, i, i, p, c) == 0;
    } else {
      LegalPrefix(run, i + 1, n - 1);
      UsedStaysUsed(run, i + 1, n - 1, p);
      StepPending(After(run, n - 1), run[n - 1], p, c);
      PendingOrOffered(run, i, n - 1, c);
    }
  }

  /** A publication that has finished was offered exactly once to every client that was in the map
      when it began. */
  lemma FinishedWasOffered(run: seq<Event>, i: nat, k: nat, c: ClientId)
    requires i < k < |run| && Legal(run, k + 1) && Legal(run, i)
    requires run[i].Publish? && run[k] == Finish(run[i].pub) && c in After(run, i).members
    ensures Offers(run, i, k, run[i].pub, c) == 1
  {
    PendingOrOffered(run, i, k, c);
  }

  /** An offer is enqueued exactly when the topic is "status" or the client is subscribed to it, and
      its buffer of 256 has room. */
  lemma OfferEnqueuedIff(run: seq<Event>, n: nat, p: nat, c: ClientId)
    requires n < |run| && Legal(run, n + 1) && run[n] == Offer(p, c)
    ensures c in After(run, n).clients && p in After(run, n).active
    ensures var s, m := After(run, n), After(run, n).active[p].msg;
            Enqueued(run, n + 1, c)
            == if (m.topic == "status" || Subscribed(run, n, c, m.topic))
                  && |s.clients[c].buffer| < 256
               then Enqueued(run, n, c) + [m] else Enqueued(run, n, c)
  {
    HubIsSafe(run, n);
    var s := After(run, n);
    assert c in s.members && ClientOk(s, c);
    HeldIffSubscribed(run, n, c, s.active[p].msg.topic);
    EnqueuedStep(run, n, c);
  }
}
