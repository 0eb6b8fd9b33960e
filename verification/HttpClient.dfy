/** Retirement of shared HTTP clients. Each section under a lock is one step; steps of different
    callers interleave freely. */
module HttpClient {
  import opened Constants
  import opened Sequences

  // ----- one client

  /** The counters of a client, whether a connection was dialled, and how often it was closed. */
  datatype Client = Client(active: int, total: nat, dialled: bool, closes: nat)

  /** The section of `GetHttpClient` under `lockRequests`. */
  function Acquire(c: Client): (r: Option<Client>) {
    if c.total < HTTP_CLIENT_MAX_REQUESTS then Some(c.(total := c.total + 1, active := c.active + 1)) else None
  }

  /** The section of `Close`. */
  function Release(c: Client): Client {
    var c' := c.(active := c.active - 1);
    if c'.active <= 0 && c'.total >= HTTP_CLIENT_MAX_REQUESTS && c'.dialled then c'.(closes := c'.closes + 1) else c'
  }

  class ClientInstance {
    var activeRequests: int
    var totalRequests: nat
    var dialled: bool
    ghost var closes: nat

    ghost function View(): Client
      reads this
    {
      Client(activeRequests, totalRequests, dialled, closes)
    }

    /** A new client is handed out once. */
    constructor ()
      ensures View() == Client(1, 1, false, 0)
    {
      activeRequests, totalRequests, dialled, closes := 1, 1, false, 0;
    }

    method TryAcquire() returns (ok: bool)
      modifies this
      ensures ok == Acquire(old(View())).Some?
      ensures View() == if ok then Acquire(old(View())).value else old(View())
      ensures ok <==> old(totalRequests) < HTTP_CLIENT_MAX_REQUESTS
      ensures totalRequests == old(totalRequests) + Ind(ok) && activeRequests == old(activeRequests) + Ind(ok)
      ensures dialled == old(dialled) && closes == old(closes)
    {
      if totalRequests < HTTP_CLIENT_MAX_REQUESTS {
        totalRequests := totalRequests + 1;
        activeRequests := activeRequests + 1;
        return true;
      }
      return false;
    }

    method Close()
      modifies this
      ensures View() == Release(old(View()))
      ensures activeRequests == old(activeRequests) - 1
      ensures totalRequests == old(totalRequests) && dialled == old(dialled)
      ensures closes == old(closes)
                        + Ind(activeRequests <= 0 && totalRequests >= HTTP_CLIENT_MAX_REQUESTS && dialled)
    {
      activeRequests := activeRequests - 1;
      if activeRequests <= 0 && totalRequests >= HTTP_CLIENT_MAX_REQUESTS {
        if dialled {
          closes := closes + 1;
        }
      }
    }
  }

  /** `GetHttpClient` without interference from other callers. */
  class ClientManager {
    var clients: map<string, ClientInstance>

    constructor ()
      ensures clients == map[]
    {
      clients := map[];
    }

    method GetHttpClient(address: string) returns (c: ClientInstance)
      modifies this, if address in clients then {clients[address]} else {}
      ensures address in clients && clients[address] == c
      ensures address in old(clients) && old(Acquire(clients[address].View()).Some?) ==>
                clients == old(clients) && c.View() == old(Acquire(clients[address].View()).value)
      ensures !(address in old(clients) && old(Acquire(clients[address].View()).Some?)) ==>
                clients == old(clients)[address := c] && fresh(c) && c.View() == Client(1, 1, false, 0)
      ensures if address in old(clients) && old(clients[address].totalRequests) < HTTP_CLIENT_MAX_REQUESTS
              then
                && clients == old(clients) && c == old(clients)[address]
                && c.totalRequests == old(clients[address].totalRequests) + 1
                && c.activeRequests == old(clients[address].activeRequests) + 1
              else
                && fresh(c) && clients == old(clients)[address := c]
                && c.totalRequests == c.activeRequests == 1 && !c.dialled && c.closes == 0
    {
      if address in clients {
        c := clients[address];
        var ok := c.TryAcquire();
        if ok {
          return;
        }
      }
      c := new ClientInstance();
      clients := clients[address := c];
    }
  }

  // ----- all clients, all callers

  /** A caller between two locked sections: it has read a client from the table, is about to create
      one, is about to store the one it created, or uses a client it has to release. */
  datatype Caller =
    | Idle
    | Reading(address: string, client: nat)
    | Creating(address: string)
    | Storing(address: string, client: nat)
    | Using(client: nat)

  /** The clients ever created, the table of current ones, and the callers. */
  datatype State = State(clients: seq<Client>, table: map<string, nat>, callers: seq<Caller>)

  datatype Action = Lookup(address: string) | TryAcquire | Create | Store | Dial | Close

  /** Caller `t` enters its next locked section. */
  datatype Step = Step(t: nat, act: Action)

  function Start(callers: nat): State {
    State([], map[], seq(callers, i => Idle))
  }

  predicate CanAct(clients: nat, c: Caller, act: Action) {
    match act
    case Lookup(a) => c.Idle?
    case TryAcquire => c.Reading? && c.client < clients
    case Create => c.Creating?
    case Store => c.Storing?
    case Dial => c.Using? && c.client < clients
    case Close => c.Using? && c.client < clients
  }

  predicate Enabled(s: State, step: Step) {
    step.t < |s.callers| && CanAct(|s.clients|, s.callers[step.t], step.act)
  }

  function ClientsAfter(clients: seq<Client>, c: Caller, act: Action): seq<Client>
    requires CanAct(|clients|, c, act)
  {
    match act
    case Lookup(_) => clients
    case TryAcquire =>
      var r := Acquire(clients[c.client]);
      if r.Some? then clients[c.client := r.value] else clients
    case Create => clients + [Client(1, 1, false, 0)]
    case Store => clients
    case Dial => clients[c.client := clients[c.client].(dialled := true)]
    case Close => clients[c.client := Release(clients[c.client])]
  }

  function CallerAfter(clients: seq<Client>, table: map<string, nat>, c: Caller, act: Action): Caller
    requires CanAct(|clients|, c, act)
  {
    match act
    case Lookup(a) => if a in table then Reading(a, table[a]) else Creating(a)
    case TryAcquire => if Acquire(clients[c.client]).Some? then Using(c.client) else Creating(c.address)
    case Create => Storing(c.address, |clients|)
    case Store => Using(c.client)
    case Dial => c
    case Close => Idle
  }

  function Next(s: State, step: Step): State
    requires Enabled(s, step)
  {
    var c := s.callers[step.t];
    State(ClientsAfter(s.clients, c, step.act),
          if step.act.Store? then s.table[c.address := c.client] else s.table,
          s.callers[step.t := CallerAfter(s.clients, s.table, c, step.act)])
  }

  ghost predicate Run(s: State, steps: seq<Step>, s': State)
    decreases |steps|
  {
    if steps == [] then s' == s
    else Enabled(s, steps[0]) && Run(Next(s, steps[0]), steps[1..], s')
  }

  // ----- handles

  predicate Holds(c: Caller, i: nat) { (c.Storing? || c.Using?) && c.client == i }

  predicate Reads(c: Caller, i: nat) { c.Reading? && c.client == i }

  function HolderOf(i: nat): Caller -> bool { c => Holds(c, i) }

  function ReaderOf(i: nat): Caller -> bool { c => Reads(c, i) }

  /** The unreleased handles of client `i`. */
  function Handles(callers: seq<Caller>, i: nat): nat { CountIf(callers, HolderOf(i)) }

  /** The callers that read client `i` from the table and have not tried to acquire it yet. */
  function Readers(callers: seq<Caller>, i: nat): nat { CountIf(callers, ReaderOf(i)) }

  // ----- the invariant

  /** The counter is the number of unreleased handles, no client serves more than the limit, and it
      is closed exactly once: when it has served the limit, its last handle is back and a connection
      was dialled. */
  ghost predicate ClientOk(c: Client, handles: nat) {
    && c.active == handles
    && 1 <= c.total <= HTTP_CLIENT_MAX_REQUESTS
    && c.closes == (if c.total == HTTP_CLIENT_MAX_REQUESTS && handles == 0 && c.dialled then 1 else 0)
  }

  ghost predicate CallerOk(clients: nat, c: Caller) {
    c.Reading? || c.Storing? || c.Using? ==> c.client < clients
  }

  ghost predicate Inv(s: State) {
    && (forall i :: 0 <= i < |s.clients| ==> ClientOk(s.clients[i], Handles(s.callers, i)))
    && (forall t :: 0 <= t < |s.callers| ==> CallerOk(|s.clients|, s.callers[t]))
    && (forall a :: a in s.table ==> s.table[a] < |s.clients|)
  }

  /** One client across one step. */
  lemma ClientKept(s: State, step: Step, i: nat)
    requires Inv(s) && Enabled(s, step) && i < |Next(s, step).clients|
    ensures ClientOk(Next(s, step).clients[i], Handles(Next(s, step).callers, i))
  {
    var c := s.callers[step.t];
    var c' := CallerAfter(s.clients, s.table, c, step.act);
    CountUpdate(s.callers, step.t, c', HolderOf(i));
    if i < |s.clients| {
      assert ClientOk(s.clients[i], Handles(s.callers, i));
      if Holds(c, i) {
        CountMember(s.callers, step.t, HolderOf(i));
      }
    } else {
      forall t | 0 <= t < |s.callers| ensures !Holds(s.callers[t], i) {
        assert CallerOk(|s.clients|, s.callers[t]);
      }
      CountNone(s.callers, HolderOf(i));
    }
  }

  lemma InvKept(s: State, step: Step)
    requires Inv(s) && Enabled(s, step)
    ensures Inv(Next(s, step))
  {
    var s' := Next(s, step);
    forall i | 0 <= i < |s'.clients| ensures ClientOk(s'.clients[i], Handles(s'.callers, i)) {
      ClientKept(s, step, i);
    }
    forall t | 0 <= t < |s'.callers| ensures CallerOk(|s'.clients|, s'.callers[t]) {
      assert CallerOk(|s.clients|, s.callers[t]);
    }
    assert CallerOk(|s.clients|, s.callers[step.t]);
  }

  /** In every interleaving. */
  lemma {:induction false} RunKeepsInv(s: State, steps: seq<Step>, s': State)
    requires Inv(s) && Run(s, steps, s')
    ensures Inv(s')
    decreases |steps|
  {
    if steps == [] {
    } else {
      InvKept(s, steps[0]);
      RunKeepsInv(Next(s, steps[0]), steps[1..], s');
    }
  }

  lemma ClosedStays(s: State, step: Step, i: nat)
    requires Inv(s) && Enabled(s, step) && i < |s.clients| && s.clients[i].closes > 0
    ensures i < |Next(s, step).clients| && Next(s, step).clients[i] == s.clients[i]
  {
    assert ClientOk(s.clients[i], Handles(s.callers, i));
    if Holds(s.callers[step.t], i) {
      CountMember(s.callers, step.t, HolderOf(i));
    }
  }

  /** After a client was closed, no handle to it exists or is issued and it is never closed again. */
  lemma {:induction false} ClosedIsFinal(s: State, steps: seq<Step>, s': State, i: nat)
    requires Inv(s) && Run(s, steps, s') && i < |s.clients| && s.clients[i].closes > 0
    ensures i < |s'.clients| && s'.clients[i] == s.clients[i] && Handles(s'.callers, i) == 0
    decreases |steps|
  {
    if steps == [] {
      assert ClientOk(s.clients[i], Handles(s.callers, i));
    } else {
      InvKept(s, steps[0]);
      ClosedStays(s, steps[0], i);
      ClosedIsFinal(Next(s, steps[0]), steps[1..], s', i);
    }
  }

  // ----- clients that were replaced in the table

  /** Client `i` is not in the table and nobody is about to store it. Callers may still use it, and
      others may have read it and be about to acquire it. */
  ghost predicate Replaced(s: State, i: nat) {
    && i < |s.clients|
    && (forall a :: a in s.table ==> s.table[a] != i)
    && (forall t :: 0 <= t < |s.callers| && s.callers[t].Storing? ==> s.callers[t].client != i)
  }

  /** The requests the client can still come to. */
  function Reachable(s: State, i: nat): nat
    requires i < |s.clients|
  {
    s.clients[i].total + Readers(s.callers, i)
  }

  /** Served to the limit and released by all, but never dialled: nothing is left to trigger a close. */
  ghost predicate Settled(s: State, i: nat)
    requires i < |s.clients|
  {
    s.clients[i].total == HTTP_CLIENT_MAX_REQUESTS && Handles(s.callers, i) == 0
  }

  lemma ReplacedStep(s: State, step: Step, i: nat)
    requires Inv(s) && Replaced(s, i) && Enabled(s, step)
    ensures Replaced(Next(s, step), i) && Reachable(Next(s, step), i) <= Reachable(s, i)
    ensures Settled(s, i) ==> Settled(Next(s, step), i) && Next(s, step).clients[i] == s.clients[i]
  {
    var c := s.callers[step.t];
    var c' := CallerAfter(s.clients, s.table, c, step.act);
    CountUpdate(s.callers, step.t, c', HolderOf(i));
    CountUpdate(s.callers, step.t, c', ReaderOf(i));
    if Reads(c, i) {
      CountMember(s.callers, step.t, ReaderOf(i));
    }
    if Holds(c, i) {
      CountMember(s.callers, step.t, HolderOf(i));
    }
  }

  /** `steps` lead to a state in which the client was closed. */
  ghost predicate ClosesIn(s: State, steps: seq<Step>, s': State, i: nat) {
    Run(s, steps, s') && i < |s'.clients| && s'.clients[i].closes > 0
  }

  lemma {:induction false} ReplacedStaysOpen(s: State, steps: seq<Step>, s': State, i: nat)
    requires Inv(s) && Replaced(s, i) && Run(s, steps, s') && s.clients[i].closes == 0
    requires Reachable(s, i) < HTTP_CLIENT_MAX_REQUESTS || Settled(s, i)
    ensures Replaced(s', i) && s'.clients[i].closes == 0
    decreases |steps|
  {
    if steps == [] {
    } else {
      var next := Next(s, steps[0]);
      InvKept(s, steps[0]);
      ReplacedStep(s, steps[0], i);
      assert ClientOk(next.clients[i], Handles(next.callers, i));
      ReplacedStaysOpen(next, steps[1..], s', i);
    }
  }

  /** The readers bring the client to the limit. */
  lemma {:induction false} ReadersFill(s: State, i: nat) returns (steps: seq<Step>, s': State)
    requires Inv(s) && Replaced(s, i) && Reachable(s, i) >= HTTP_CLIENT_MAX_REQUESTS && !Settled(s, i)
    ensures Run(s, steps, s') && Inv(s') && Replaced(s', i)
    ensures s'.clients[i].total == HTTP_CLIENT_MAX_REQUESTS && Handles(s'.callers, i) > 0
    decreases HTTP_CLIENT_MAX_REQUESTS - s.clients[i].total
  {
    assert ClientOk(s.clients[i], Handles(s.callers, i));
    if s.clients[i].total == HTTP_CLIENT_MAX_REQUESTS {
      steps, s' := [], s;
    } else {
      var t := SomeCounted(s.callers, ReaderOf(i));
      var step := Step(t, TryAcquire);
      var next := Next(s, step);
      ReplacedStep(s, step, i);
      InvKept(s, step);
      CountUpdate(s.callers, t, Using(i), ReaderOf(i));
      CountMember(next.callers, t, HolderOf(i));
      var rest;
      rest, s' := ReadersFill(next, i);
      steps := [step] + rest;
      assert steps[1..] == rest;
    }
  }

  /** A user dials if nobody has yet; then its users release it, and the last one closes it. */
  lemma {:induction false} UsersClose(s: State, i: nat) returns (steps: seq<Step>, s': State)
    requires Inv(s) && Replaced(s, i) && s.clients[i].total == HTTP_CLIENT_MAX_REQUESTS
    requires s.clients[i].dialled || Handles(s.callers, i) > 0
    ensures ClosesIn(s, steps, s', i)
    decreases Handles(s.callers, i), !s.clients[i].dialled
  {
    assert ClientOk(s.clients[i], Handles(s.callers, i));
    if Handles(s.callers, i) == 0 {
      steps, s' := [], s;
    } else {
      var t := SomeCounted(s.callers, HolderOf(i));
      var step := Step(t, if s.clients[i].dialled then Close else Dial);
      ReplacedStep(s, step, i);
      InvKept(s, step);
      CountUpdate(s.callers, t, Next(s, step).callers[t], HolderOf(i));
      var rest;
      rest, s' := UsersClose(Next(s, step), i);
      steps := [step] + rest;
      assert steps[1..] == rest;
    }
  }

  lemma {:induction false} RunJoin(s: State, a: seq<Step>, mid: State, b: seq<Step>, s': State)
    requires Run(s, a, mid) && Run(mid, b, s')
    ensures Run(s, a + b, s')
    decreases |a|
  {
    if a == [] {
      assert a + b == b;
    } else {
      RunJoin(Next(s, a[0]), a[1..], mid, b, s');
      assert (a + b)[1..] == a[1..] + b;
    }
  }

  /** When a replaced client can still be closed: exactly if the callers that read it earlier can
      bring it to the limit, and it is not at the limit already with every handle back. */
  lemma ReplacedClosesIff(s: State, i: nat)
    requires Inv(s) && Replaced(s, i) && s.clients[i].closes == 0
    ensures (exists steps, s' :: ClosesIn(s, steps, s', i))
            <==> Reachable(s, i) >= HTTP_CLIENT_MAX_REQUESTS && !Settled(s, i)
  {
    if Reachable(s, i) >= HTTP_CLIENT_MAX_REQUESTS && !Settled(s, i) {
      var fill, full := ReadersFill(s, i);
      var close, closed := UsersClose(full, i);
      RunJoin(s, fill, full, close, closed);
      assert ClosesIn(s, fill + close, closed, i);
    } else {
      forall steps, s' ensures !ClosesIn(s, steps, s', i) {
        if Run(s, steps, s') {
          ReplacedStaysOpen(s, steps, s', i);
        }
      }
    }
  }

  const MADE := Client(1, 1, false, 0)

  /** Two callers that find no client for the same address create one each, and the client stored
      first is replaced by the second. Nothing closes it any more. */
  lemma DoubleMissStaysOpen(a: string) returns (steps: seq<Step>, s: State)
    ensures Run(Start(2), steps, s) && Inv(s) && Replaced(s, 0)
    ensures !exists later, s' :: ClosesIn(s, later, s', 0)
  {
    var found, stored := [Step(0, Lookup(a)), Step(1, Lookup(a))], [Step(0, Store), Step(1, Store)];
    var created := [Step(0, Create), Step(1, Create)];
    var s1 := State([], map[], [Creating(a), Creating(a)]);
    var s2 := State([MADE, MADE], map[], [Storing(a, 0), Storing(a, 1)]);
    s := State([MADE, MADE], map[a := 1], [Using(0), Using(1)]);
    assert Start(2).callers == [Idle, Idle];
    TwoSteps(Start(2), found, s1);
    TwoSteps(s1, created, s2);
    TwoSteps(s2, stored, s);
    RunJoin(Start(2), found, s1, created, s2);
    RunJoin(Start(2), found + created, s2, stored, s);
    steps := found + created + stored;
    RunKeepsInv(Start(2), steps, s);
    CountNone(s.callers, ReaderOf(0));
    ReplacedClosesIff(s, 0);
  }

  lemma TwoSteps(s: State, steps: seq<Step>, s': State)
    requires |steps| == 2 && Enabled(s, steps[0]) && Enabled(Next(s, steps[0]), steps[1])
    requires Next(Next(s, steps[0]), steps[1]) == s'
    ensures Run(s, steps, s')
  {
    assert steps[1..][1..] == [] && steps[1..][0] == steps[1];
  }

  /** A caller that nobody interrupts gets what `GetHttpClient` gives: a request of the current client if it
      has any left, and otherwise a new client that replaces it in the table. */
  lemma AloneIsGetHttpClient(s: State, t: nat, a: string) returns (steps: seq<Step>, s': State)
    requires Inv(s) && t < |s.callers| && s.callers[t].Idle?
    ensures Run(s, steps, s') && forall k :: 0 <= k < |steps| ==> steps[k].t == t && !steps[k].act.Close?
    ensures a in s'.table && s'.callers == s.callers[t := Using(s'.table[a])]
    ensures if a in s.table && s.clients[s.table[a]].total < HTTP_CLIENT_MAX_REQUESTS
            then
              var i := s.table[a];
              && s'.table == s.table
              && s'.clients == s.clients[i := s.clients[i].(total := s.clients[i].total + 1,
                                                            active := s.clients[i].active + 1)]
            else
              && s'.table == s.table[a := |s.clients|]
              && s'.clients == s.clients + [MADE]
  {
    var lookup, create, store := Step(t, Lookup(a)), Step(t, Create), Step(t, Store);
    var s1 := Next(s, lookup);
    if a in s.table {
      var acquire := Step(t, TryAcquire);
      var s2 := Next(s1, acquire);
      TwoSteps(s, [lookup, acquire], s2);
      if s.clients[s.table[a]].total < HTTP_CLIENT_MAX_REQUESTS {
        steps, s' := [lookup, acquire], s2;
      } else {
        s' := Next(Next(s2, create), store);
        TwoSteps(s2, [create, store], s');
        RunJoin(s, [lookup, acquire], s2, [create, store], s');
        steps := [lookup, acquire] + [create, store];
      }
    } else {
      s' := Next(Next(s1, create), store);
      TwoSteps(s1, [create, store], s');
      assert Run(s, [lookup], s1);
      RunJoin(s, [lookup], s1, [create, store], s');
      steps := [lookup] + [create, store];
    }
  }
}
