/** Publishing scan results to observers, and why publishing twice does no harm. */
module Publisher {
  import opened Common
  import V = Vault
  import VR = VaultRuns

  /** A Go channel: its buffer, the goroutines that still hold a value for it, and what was received from it. */
  datatype Chan<T> = Chan(capacity: nat, buffer: seq<T>, senders: multiset<T>, received: seq<T>)

  /** Everything ever sent to the channel. */
  function Contents<T>(c: Chan<T>): multiset<T> {
    multiset(c.buffer) + c.senders + multiset(c.received)
  }

  /** `ch <- x` if it can proceed: to a waiting receiver, or into the buffer. */
  function TrySend<T>(c: Chan<T>, x: T, waiting: bool): Option<Chan<T>> {
    if waiting && c.buffer == [] then Some(c.(received := c.received + [x]))
    else if |c.buffer| < c.capacity then Some(c.(buffer := c.buffer + [x]))
    else None
  }

  /** The select of the Notify methods: send, or leave the value to a new goroutine. */
  function Offer<T>(c: Chan<T>, x: T, waiting: bool): Chan<T> {
    var sent := TrySend(c, x, waiting);
    if sent.Some? then sent.value else c.(senders := c.senders + multiset{x})
  }

  type Channels<T> = map<nat, Chan<T>>

  /** One notification: every registered observer in turn; an observer may be registered more than once. */
  function NotifyAll<T>(cs: Channels<T>, observers: seq<nat>, x: T, waiting: seq<bool>): Channels<T>
    requires |waiting| == |observers| && forall o :: o in observers ==> o in cs
    ensures NotifyAll(cs, observers, x, waiting).Keys == cs.Keys
  {
    if observers == [] then cs else
      var last := |observers| - 1;
      var o, before := observers[last], NotifyAll(cs, observers[..last], x, waiting[..last]);
      before[o := Offer(before[o], x, waiting[last])]
  }

  class PublisherService<T(==)> {
    var observers: seq<nat>
    var channels: Channels<T>

    constructor ()
      ensures observers == [] && channels == map[]
    {
      observers, channels := [], map[];
    }

    ghost predicate Valid()
      reads this
    {
      forall o :: o in observers ==> o in channels
    }

    method Register(o: nat, capacity: nat)
      requires Valid()
      modifies this
      ensures Valid() && observers == old(observers) + [o]
      ensures channels == if o in old(channels) then old(channels) else old(channels)[o := Chan(capacity, [], multiset{}, [])]
    {
      observers := observers + [o];
      if o !in channels {
        channels := channels[o := Chan(capacity, [], multiset{}, [])];
      }
    }

    method Notify(x: T, waiting: seq<bool>)
      requires Valid() && |waiting| == |observers|
      modifies `channels
      ensures Valid() && channels == NotifyAll(old(channels), observers, x, waiting)
    {
      ghost var start := channels;
      for i := 0 to |observers|
        invariant forall o :: o in observers ==> o in channels && o in start
        invariant channels == NotifyAll(start, observers[..i], x, waiting[..i])
      {
        assert observers[..i + 1][..i] == observers[..i] && waiting[..i + 1][..i] == waiting[..i];
        var o := observers[i];
        var sent := TrySend(channels[o], x, waiting[i]);
        if sent.Some? {
          channels := channels[o := sent.value];
        } else {
          channels := channels[o := channels[o].(senders := channels[o].senders + multiset{x})];
        }
      }
      assert observers[..|observers|] == observers && waiting[..|observers|] == waiting;
    }
  }

  // ---------- Runs ----------

  datatype Event<T> =
    | Notify(x: T, waiting: seq<bool>)
    | SenderRuns(o: nat, y: T, toReceiver: bool)
    | Receive(from: nat)

  ghost predicate Enabled<T>(cs: Channels<T>, observers: seq<nat>, e: Event<T>) {
    match e
    case Notify(_, waiting) => |waiting| == |observers| && forall o :: o in observers ==> o in cs
    case SenderRuns(o, y, toReceiver) => o in cs && y in cs[o].senders && TrySend(cs[o], y, toReceiver).Some?
    case Receive(from) => from in cs && cs[from].buffer != []
  }

  ghost function Do<T>(cs: Channels<T>, observers: seq<nat>, e: Event<T>): Channels<T>
    requires Enabled(cs, observers, e)
  {
    match e
    case Notify(x, waiting) => NotifyAll(cs, observers, x, waiting)
    case SenderRuns(o, y, toReceiver) =>
      var c := TrySend(cs[o], y, toReceiver).value;
      cs[o := c.(senders := c.senders - multiset{y})]
    case Receive(from) =>
      var c := cs[from];
      cs[from := c.(buffer := c.buffer[1..], received := c.received + [c.buffer[0]])]
  }

  /** A run from channels that nothing was sent to yet. */
  ghost predicate Run<T>(cs: Channels<T>, observers: seq<nat>, es: seq<Event<T>>)
    decreases |es|, 0
  {
    if es == [] then forall o :: o in cs ==> Contents(cs[o]) == multiset{}
    else Run(cs, observers, es[..|es| - 1]) && Enabled(After(cs, observers, es[..|es| - 1]), observers, es[|es| - 1])
  }

  ghost function After<T>(cs: Channels<T>, observers: seq<nat>, es: seq<Event<T>>): Channels<T>
    requires Run(cs, observers, es)
    decreases |es|, 1
  {
    if es == [] then cs else Do(After(cs, observers, es[..|es| - 1]), observers, es[|es| - 1])
  }

  function Notified<T>(es: seq<Event<T>>): seq<T> {
    if es == [] then []
    else Notified(es[..|es| - 1]) + if es[|es| - 1].Notify? then [es[|es| - 1].x] else []
  }

  function Registrations(observers: seq<nat>, o: nat): nat {
    if observers == [] then 0
    else Registrations(observers[..|observers| - 1], o) + if observers[|observers| - 1] == o then 1 else 0
  }

  ghost function Times<T>(m: multiset<T>, k: nat): multiset<T> {
    if k == 0 then multiset{} else m + Times(m, k - 1)
  }

  lemma {:induction false} TimesAdds<T>(m: multiset<T>, n: multiset<T>, k: nat)
    ensures Times(m + n, k) == Times(m, k) + Times(n, k)
  {
    if k > 0 {
      TimesAdds(m, n, k - 1);
    }
  }

  lemma OfferAdds<T>(c: Chan<T>, x: T, waiting: bool)
    ensures Contents(Offer(c, x, waiting)) == Contents(c) + multiset{x}
  {
  }

  /** An offer, exactly: to a waiting receiver if nothing is buffered; else to the end of the buffer if it has room;
      else to a goroutine. */
  lemma OffersExactly<T>(c: Chan<T>, x: T, waiting: bool)
    ensures var d := Offer(c, x, waiting);
            && d.capacity == c.capacity
            && (waiting && c.buffer == [] ==> d.received == c.received + [x] && d.buffer == c.buffer && d.senders == c.senders)
            && (!(waiting && c.buffer == []) && |c.buffer| < c.capacity ==>
                  d.buffer == c.buffer + [x] && d.received == c.received && d.senders == c.senders)
            && (!(waiting && c.buffer == []) && |c.buffer| >= c.capacity ==>
                  d.senders == c.senders + multiset{x} && d.buffer == c.buffer && d.received == c.received)
  {
  }

  predicate Fits<T>(cs: Channels<T>) {
    forall o :: o in cs ==> |cs[o].buffer| <= cs[o].capacity
  }

  lemma {:induction false} NotifyFits<T>(cs: Channels<T>, observers: seq<nat>, x: T, waiting: seq<bool>)
    requires |waiting| == |observers| && (forall o :: o in observers ==> o in cs) && Fits(cs)
    ensures Fits(NotifyAll(cs, observers, x, waiting))
  {
    if observers != [] {
      NotifyFits(cs, observers[..|observers| - 1], x, waiting[..|observers| - 1]);
    }
  }

  /** No buffer ever holds more than its capacity. */
  lemma {:induction false} BuffersFit<T>(cs: Channels<T>, observers: seq<nat>, es: seq<Event<T>>)
    requires Run(cs, observers, es) && Fits(cs)
    ensures Fits(After(cs, observers, es))
  {
    if es != [] {
      var before, e := es[..|es| - 1], es[|es| - 1];
      BuffersFit(cs, observers, before);
      if e.Notify? {
        NotifyFits(After(cs, observers, before), observers, e.x, e.waiting);
      }
    }
  }

  /** A notification adds its value to a channel once for each registration. */
  lemma {:induction false} NotifyAdds<T>(cs: Channels<T>, observers: seq<nat>, x: T, waiting: seq<bool>, o: nat)
    requires |waiting| == |observers| && (forall p :: p in observers ==> p in cs) && o in cs
    ensures Contents(NotifyAll(cs, observers, x, waiting)[o])
            == Contents(cs[o]) + Times(multiset{x}, Registrations(observers, o))
  {
    if observers != [] {
      var last := |observers| - 1;
      var front, p := observers[..last], observers[last];
      var before := NotifyAll(cs, front, x, waiting[..last]);
      NotifyAdds(cs, front, x, waiting[..last], o);
      var k := Registrations(front, o);
      assert NotifyAll(cs, observers, x, waiting)[o] == if p == o then Offer(before[o], x, waiting[last]) else before[o];
      if p == o {
        OfferAdds(before[o], x, waiting[last]);
        TimesNext(x, k);
        assert Registrations(observers, o) == k + 1;
      } else {
        assert Registrations(observers, o) == k;
      }
    }
  }

  lemma TimesNext<T>(x: T, k: nat)
    ensures Times(multiset{x}, k + 1) == Times(multiset{x}, k) + multiset{x}
  {
  }

  lemma ReceiveKeeps<T>(c: Chan<T>)
    requires c.buffer != []
    ensures Contents(c.(buffer := c.buffer[1..], received := c.received + [c.buffer[0]])) == Contents(c)
  {
    assert c.buffer == [c.buffer[0]] + c.buffer[1..];
  }

  lemma SenderKeeps<T>(c: Chan<T>, y: T, toReceiver: bool)
    requires y in c.senders && TrySend(c, y, toReceiver).Some?
    ensures var sent := TrySend(c, y, toReceiver).value;
            Contents(sent.(senders := sent.senders - multiset{y})) == Contents(c)
  {
  }

  /** A goroutine that sends, and a receive, move a value but neither lose nor duplicate it. */
  lemma MoveKeeps<T>(cs: Channels<T>, observers: seq<nat>, e: Event<T>, o: nat)
    requires Enabled(cs, observers, e) && !e.Notify? && o in cs
    ensures o in Do(cs, observers, e) && Contents(Do(cs, observers, e)[o]) == Contents(cs[o])
  {
    match e
    case SenderRuns(p, y, toReceiver) => SenderKeeps(cs[p], y, toReceiver);
    case Receive(from) => ReceiveKeeps(cs[from]);
  }

  /** Under any schedule of full channels, goroutines and receivers, a channel holds every notification exactly
      once for each registration. */
  lemma {:induction false} NothingLostOrDoubled<T>(cs: Channels<T>, observers: seq<nat>, es: seq<Event<T>>, o: nat)
    requires Run(cs, observers, es) && o in cs
    ensures o in After(cs, observers, es)
    ensures Contents(After(cs, observers, es)[o]) == Times(multiset(Notified(es)), Registrations(observers, o))
  {
    if es == [] {
      TimesNone(multiset(Notified(es)), Registrations(observers, o));
    } else {
      var before, e := es[..|es| - 1], es[|es| - 1];
      NothingLostOrDoubled(cs, observers, before, o);
      if e.Notify? {
        NotifyAdds(After(cs, observers, before), observers, e.x, e.waiting, o);
        TimesAdds(multiset(Notified(before)), multiset{e.x}, Registrations(observers, o));
        assert multiset(Notified(es)) == multiset(Notified(before)) + multiset{e.x};
      } else {
        MoveKeeps(After(cs, observers, before), observers, e, o);
        assert Notified(es) == Notified(before);
      }
    }
  }

  lemma {:induction false} TimesNone<T>(m: multiset<T>, k: nat)
    requires m == multiset{}
    ensures Times(m, k) == multiset{}
  {
    if k > 0 {
      TimesNone(m, k - 1);
    }
  }

  /** Nothing is on its way to the observer any more. */
  predicate Quiet<T>(c: Chan<T>) {
    c.buffer == [] && c.senders == multiset{}
  }

  /** An observer that registered once has received exactly the notifications, as a multiset. */
  lemma DeliveredExactlyOnce<T>(cs: Channels<T>, observers: seq<nat>, es: seq<Event<T>>, o: nat)
    requires Run(cs, observers, es) && o in cs && Registrations(observers, o) == 1
    requires o in After(cs, observers, es) && Quiet(After(cs, observers, es)[o])
    ensures multiset(After(cs, observers, es)[o].received) == multiset(Notified(es))
  {
    NothingLostOrDoubled(cs, observers, es, o);
    var m := multiset(Notified(es));
    assert Times(m, 1) == m + Times(m, 0);
    var c := After(cs, observers, es)[o];
    assert Contents(c) == multiset(c.received);
  }

  // ---------- Rescans ----------

  /** What a scan reports about an output of the bridge. */
  datatype ObservedUTXO = ObservedUTXO(k: Key, blockNumber: int, blockHash: Hash, amount: nat, pkScript: seq<byte>)

  /** The outputs that a vault run was told about. */
  ghost function Reported(ops: seq<VR.Step>): set<(Key, nat)> {
    set op | op in ops && op.Add? :: (op.k, op.amount)
  }

  /** A transaction id fixes the amounts of its outputs. */
  ghost predicate OneAmount(s: set<(Key, nat)>) {
    forall a, b :: a in s && b in s && a.0 == b.0 ==> a == b
  }

  /** What the vault adds is what was reported, whatever else it did in between. */
  lemma {:induction false} FirstAddsAreReports(ops: seq<VR.Step>)
    requires OneAmount(Reported(ops))
    ensures forall k, n :: (k in VR.FirstAdds(ops) && VR.FirstAdds(ops)[k] == n) <==> (k, n) in Reported(ops)
  {
    if ops != [] {
      var before, op := ops[..|ops| - 1], ops[|ops| - 1];
      assert ops == before + [op];
      assert Reported(ops) == Reported(before) + if op.Add? then {(op.k, op.amount)} else {} by {
        forall p | p in Reported(ops) ensures p in Reported(before) + if op.Add? then {(op.k, op.amount)} else {} {
          var q :| q in ops && q.Add? && p == (q.k, q.amount);
          assert q in before || q == op;
        }
      }
      FirstAddsAreReports(before);
      if op.Add? && op.k in VR.FirstAdds(before) {
        assert (op.k, VR.FirstAdds(before)[op.k]) in Reported(ops) && (op.k, op.amount) in Reported(ops);
      }
    }
  }

  /** Rescan idempotence: vaults that were told about the same outputs, in any order and any number of times,
      between any selections and releases, hold the same outputs with the same amounts. */
  lemma SameReportsSameVault(ops: seq<VR.Step>, others: seq<VR.Step>)
    requires VR.Run(VR.START, ops) && VR.Run(VR.START, others)
    requires Reported(ops) == Reported(others) && OneAmount(Reported(ops))
    ensures V.Amounts(VR.After(VR.START, ops).table) == V.Amounts(VR.After(VR.START, others).table)
  {
    VR.AmountsAreFirstAdds(ops);
    VR.AmountsAreFirstAdds(others);
    FirstAddsAreReports(ops);
    FirstAddsAreReports(others);
    var a, b := VR.FirstAdds(ops), VR.FirstAdds(others);
    forall k | k in a ensures k in b && a[k] == b[k] {
      assert (k, a[k]) in Reported(ops);
    }
    forall k | k in b ensures k in a {
      assert (k, b[k]) in Reported(others);
    }
  }

  /** The vault steps of the UTXO observer, which adds what it receives and ignores errors; `oks` says which adds
      succeed. */
  function Adds(us: seq<ObservedUTXO>, oks: seq<bool>): seq<VR.Step>
    requires |oks| == |us|
  {
    if us == [] then [] else
      var u, last := us[|us| - 1], |us| - 1;
      Adds(us[..last], oks[..last]) + if oks[last] then [VR.Add(u.k, u.blockNumber, u.blockHash, u.amount, u.pkScript)] else []
  }

  /** Some successful add was about this output. */
  ghost predicate Told(us: seq<ObservedUTXO>, oks: seq<bool>, p: (Key, nat)) {
    exists i :: 0 <= i < |us| && i < |oks| && oks[i] && (us[i].k, us[i].amount) == p
  }

  lemma {:induction false} AddsReport(us: seq<ObservedUTXO>, oks: seq<bool>, p: (Key, nat))
    requires |oks| == |us|
    ensures p in Reported(Adds(us, oks)) <==> Told(us, oks, p)
  {
    if us != [] {
      var last := |us| - 1;
      var before, u := Adds(us[..last], oks[..last]), us[last];
      AddsReport(us[..last], oks[..last], p);
      if Told(us[..last], oks[..last], p) {
        var i :| 0 <= i < last && oks[..last][i] && (us[..last][i].k, us[..last][i].amount) == p;
        assert oks[i] && (us[i].k, us[i].amount) == p;
      }
      if Told(us, oks, p) {
        var i :| 0 <= i < |us| && oks[i] && (us[i].k, us[i].amount) == p;
        assert i < last ==> oks[..last][i] && us[..last][i] == us[i];
      }
      var add := VR.Add(u.k, u.blockNumber, u.blockHash, u.amount, u.pkScript);
      assert Adds(us, oks) == before + if oks[last] then [add] else [];
      ReportedSnoc(before, add);
    }
  }

  lemma ReportedSnoc(ops: seq<VR.Step>, op: VR.Step)
    requires op.Add?
    ensures Reported(ops + [op]) == Reported(ops) + {(op.k, op.amount)}
  {
    forall p | p in Reported(ops + [op]) ensures p in Reported(ops) + {(op.k, op.amount)} {
      var q :| q in ops + [op] && q.Add? && p == (q.k, q.amount);
      assert q in ops || q == op;
    }
    assert op in ops + [op];
    assert forall q :: q in ops ==> q in ops + [op];
  }

  lemma SameElements<T>(a: seq<T>, b: seq<T>)
    requires multiset(a) == multiset(b)
    ensures forall x :: x in a <==> x in b
  {
    assert forall x :: x in a <==> x in multiset(a);
    assert forall x :: x in b <==> x in multiset(b);
  }

  /** From notification to vault: a quiet observer tells the vault about notified outputs only, and about all of
      them exactly when for each some add succeeds. */
  lemma NotificationsReachTheVault(cs: Channels<ObservedUTXO>, observers: seq<nat>, es: seq<Event<ObservedUTXO>>, o: nat, oks: seq<bool>)
    requires Run(cs, observers, es) && o in cs && Registrations(observers, o) == 1
    requires o in After(cs, observers, es) && Quiet(After(cs, observers, es)[o])
    requires |oks| == |After(cs, observers, es)[o].received|
    ensures var received := After(cs, observers, es)[o].received;
            var all := set u | u in Notified(es) :: (u.k, u.amount);
            && Reported(Adds(received, oks)) <= all
            && (Reported(Adds(received, oks)) == all <==> forall u :: u in Notified(es) ==> Told(received, oks, (u.k, u.amount)))
  {
    var received := After(cs, observers, es)[o].received;
    DeliveredExactlyOnce(cs, observers, es, o);
    SameElements(received, Notified(es));
    var told, all := Reported(Adds(received, oks)), set u | u in Notified(es) :: (u.k, u.amount);
    forall p ensures p in told <==> Told(received, oks, p) {
      AddsReport(received, oks, p);
    }
    forall p | p in told ensures p in all {
      var i :| 0 <= i < |received| && oks[i] && (received[i].k, received[i].amount) == p;
      assert received[i] in Notified(es);
    }
    if told == all {
      forall u | u in Notified(es) ensures Told(received, oks, (u.k, u.amount)) {
        assert (u.k, u.amount) in all;
      }
    }
  }

  /** Telling the vault again about an output it has changes nothing: not its lock, timeout or link. */
  lemma RedeliveryChangesNothing(ops: seq<VR.Step>, u: ObservedUTXO)
    requires VR.Run(VR.START, ops) && exists n :: (u.k, n) in Reported(ops)
    requires OneAmount(Reported(ops))
    ensures var all := ops + Adds([u], [true]);
            VR.Run(VR.START, all) && VR.After(VR.START, all) == VR.After(VR.START, ops)
  {
    VR.AmountsAreFirstAdds(ops);
    FirstAddsAreReports(ops);
    var n :| (u.k, n) in Reported(ops);
    assert u.k in V.Amounts(VR.After(VR.START, ops).table);
    var add := VR.Add(u.k, u.blockNumber, u.blockHash, u.amount, u.pkScript);
    assert Adds([u], [true]) == [add] by { assert [u][..0] == [] && [true][..0] == []; }
    VR.RunSnoc(VR.START, ops, add);
  }
}
