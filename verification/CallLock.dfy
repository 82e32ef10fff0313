/**
 The bridge's locking protocol over its one native channel.  `_mt5_call_lock` is a plain,
 non-reentrant lock taken by the tick pump, the request handlers, the health check (with a
 timeout) and by `_connect` and `_disconnect` themselves, also when a handler that already
 holds it calls them.
 */
module CallLock {
  import opened Common

  type Thread = nat

  datatype Kind =
    | Pump            // _tick_pump_loop
    | TickRequest     // /tick, when the cache is stale
    | Get             // a GET for market or account data
    | Post            // a POST that trades: /order, /close, /partial-close, /modify
    | Other           // POST /enable_autotrading, and every unknown path
    | PostCredentials // POST /credentials, which reconnects when the new login does not take
    | PostReconnect   // POST /reconnect, whose first call is _disconnect()
    | Reconnect       // _reconnect_loop and start-up: _connect() with no lock held
    | Shutdown        // _disconnect() by the main thread, with no lock held
    | Health          // /health

  datatype Pc =
    | Idle
    | Wants(kind: Kind)         // blocked in `with _mt5_call_lock`
    | Trying                    // /health in acquire(timeout=1.0)
    | Unlocked                  // /health after the timeout
    | Holds(kind: Kind)
    | Native(kind: Kind)        // inside an mt5.* call
    | Nested(kind: Kind)        // holding the lock, blocked on it inside _connect or _disconnect
    | NestedHolds(kind: Kind)
    | NestedNative(kind: Kind)

  // `configured`: a login and a password are known.
  datatype State = State(lock: Option<Thread>, connected: bool, configured: bool, pc: map<Thread, Pc>)

  predicate InNative(pc: Pc) { pc.Native? || pc.NestedNative? }

  predicate Owns(pc: Pc) { pc.Holds? || pc.Native? || pc.Nested? }

  predicate Init(s: State) {
    s.lock == None && forall t :: t in s.pc ==> s.pc[t] == Idle
  }

  // The requests whose handlers call _ensure_connected under the lock, and those that call _disconnect.
  predicate Ensures(kind: Kind) { kind in {Pump, TickRequest, Get, Post} }

  predicate Disconnects(kind: Kind) { kind in {PostCredentials, PostReconnect} }

  // _ensure_connected goes on to _connect only when the flag is down, and _connect comes to the
  // lock only when there is something to log in with.
  predicate EnsureTakesLock(s: State) { !s.connected && s.configured }

  // May a thread of this kind, holding the lock, go for it once more?
  predicate MayNest(kind: Kind, s: State) {
    (Ensures(kind) && EnsureTakesLock(s)) || Disconnects(kind)
  }

  function Moved(s: State, t: Thread, pc: Pc, lock: Option<Thread>, connected: bool): State {
    State(lock, connected, s.configured, s.pc[t := pc])
  }

  /** One step of thread `t`.  A native call may leave the connection flag either way. */
  ghost predicate Next(s: State, t: Thread, n: State) {
    && t in s.pc
    && match s.pc[t]
       case Idle =>
         || (exists k: Kind :: k != Health && (k == Reconnect ==> EnsureTakesLock(s))
                               && n == Moved(s, t, Wants(k), s.lock, s.connected))
         || n == Moved(s, t, Trying, s.lock, s.connected)
       case Wants(k) => s.lock == None && n == Moved(s, t, Holds(k), Some(t), s.connected)
       case Trying =>
         || (s.lock == None && n == Moved(s, t, Holds(Health), Some(t), s.connected))
         || n == Moved(s, t, Unlocked, s.lock, s.connected)
       case Unlocked => n == Moved(s, t, Idle, s.lock, s.connected)
       case Holds(k) =>
         if k == PostReconnect then n == Moved(s, t, Nested(k), s.lock, s.connected)
         else
           || n == Moved(s, t, Native(k), s.lock, s.connected)
           || (MayNest(k, s) && n == Moved(s, t, Nested(k), s.lock, s.connected))
           || (k == PostCredentials && n == s.(configured := true))
           || (exists c: bool :: n == Moved(s, t, Idle, None, c))
       case Native(k) => exists c: bool :: n == Moved(s, t, Holds(k), s.lock, c)
       case Nested(k) => s.lock == None && n == Moved(s, t, NestedHolds(k), Some(t), s.connected)
       case NestedHolds(k) =>
         || n == Moved(s, t, NestedNative(k), s.lock, s.connected)
         || (exists c: bool :: n == Moved(s, t, Holds(k), None, c))
       case NestedNative(k) => exists c: bool :: n == Moved(s, t, NestedHolds(k), s.lock, c)
  }

  ghost predicate Steps(s: State, n: State) { exists t :: Next(s, t, n) }

  // One run: each state follows from the one before by a step of some thread.
  ghost predicate IsRun(run: seq<State>) {
    && run != []
    && forall i :: 0 <= i < |run| - 1 ==> Steps(run[i], run[i + 1])
  }

  ghost predicate Inv(s: State) {
    && (forall t :: t in s.pc ==> !s.pc[t].NestedHolds? && !s.pc[t].NestedNative? && s.pc[t] != Native(PostReconnect))
    && (forall t :: t in s.pc ==> (Owns(s.pc[t]) <==> s.lock == Some(t)))
    && (s.lock.Some? ==> s.lock.value in s.pc)
  }

  lemma StepFrame(s: State, t: Thread, n: State)
    requires Next(s, t, n)
    ensures n.pc.Keys == s.pc.Keys && forall u :: u in s.pc && u != t ==> n.pc[u] == s.pc[u]
  {
  }

  // The thread that moves ends up in order, and the lock with it or where it was.
  lemma StepOwner(s: State, t: Thread, n: State)
    requires Inv(s) && Next(s, t, n)
    ensures !n.pc[t].NestedHolds? && !n.pc[t].NestedNative? && n.pc[t] != Native(PostReconnect)
    ensures Owns(n.pc[t]) <==> n.lock == Some(t)
    ensures n.lock == s.lock || (s.lock == None && n.lock == Some(t)) || (s.lock == Some(t) && n.lock == None)
  {
    assert Owns(s.pc[t]) <==> s.lock == Some(t);
  }

  lemma InvStep(s: State, t: Thread, n: State)
    requires Inv(s) && Next(s, t, n)
    ensures Inv(n)
  {
    StepFrame(s, t, n);
    StepOwner(s, t, n);
  }

  lemma {:induction false} InvAlong(run: seq<State>, i: nat)
    requires IsRun(run) && Inv(run[0]) && i < |run|
    ensures Inv(run[i])
  {
    if i > 0 {
      InvAlong(run, i - 1);
      var t :| Next(run[i - 1], t, run[i]);
      InvStep(run[i - 1], t, run[i]);
    }
  }

  /**
   In every state of every interleaving at most one thread is inside a native call, a health
   check whose acquire timed out never is, and whoever is holds the lock.
   */
  lemma MutualExclusion(run: seq<State>, i: nat, t: Thread, u: Thread)
    requires IsRun(run) && Init(run[0]) && i < |run|
    requires t in run[i].pc && InNative(run[i].pc[t])
    ensures run[i].lock == Some(t)
    ensures u in run[i].pc && InNative(run[i].pc[u]) ==> t == u
  {
    InvAlong(run, i);
  }

  /******* A thread waiting for the lock it owns *******/

  predicate Wedged(s: State, t: Thread) {
    t in s.pc && s.lock == Some(t) && (s.pc[t].Nested? || s.pc[t] == Holds(PostReconnect))
  }

  lemma WedgedStep(s: State, t: Thread, n: State)
    requires Inv(s) && Wedged(s, t) && Steps(s, n)
    ensures Wedged(n, t)
  {
    var u :| Next(s, u, n);
    if u != t {
      assert !Owns(s.pc[u]);
    }
  }

  lemma {:induction false} WedgedAlong(run: seq<State>, i: nat, j: nat, t: Thread)
    requires IsRun(run) && Inv(run[0]) && i <= j < |run| && Wedged(run[i], t)
    ensures Wedged(run[j], t)
    decreases j
  {
    if j > i {
      WedgedAlong(run, i, j - 1, t);
      InvAlong(run, j - 1);
      assert Steps(run[j - 1], run[j]);
      WedgedStep(run[j - 1], t, run[j]);
    }
  }

  /**
   Once a thread waits inside `_connect` or `_disconnect` for the lock it holds, it waits for
   ever: in the rest of the run nobody makes a native call and nobody else gets the lock.  A
   POST /reconnect that gets the lock is in that position already.
   */
  lemma WedgedForEver(run: seq<State>, i: nat, j: nat, t: Thread, u: Thread)
    requires IsRun(run) && Init(run[0]) && i <= j < |run| && Wedged(run[i], t)
    ensures Wedged(run[j], t)
    ensures u in run[j].pc ==> !InNative(run[j].pc[u]) && (u != t ==> !Owns(run[j].pc[u]))
  {
    WedgedAlong(run, i, j, t);
    InvAlong(run, j);
  }

  // The lock can still be given back: some continuation from `s` frees it.
  ghost predicate CanBeFreed(s: State) {
    exists run: seq<State> :: IsRun(run) && run[0] == s && run[|run| - 1].lock == None
  }

  lemma RunOfThree(a: State, b: State, c: State)
    requires Steps(a, b) && (b == c || Steps(b, c))
    ensures exists run: seq<State> :: IsRun(run) && run[0] == a && run[|run| - 1] == c
  {
    var run := if b == c then [a, b] else [a, b, c];
    assert IsRun(run);
  }

  /** In a reachable state the lock can be freed exactly when no thread is wedged. */
  lemma FreedUnlessWedged(s: State)
    requires Inv(s)
    ensures CanBeFreed(s) <==> forall t :: !Wedged(s, t)
  {
    if t :| Wedged(s, t) {
      forall run: seq<State> | IsRun(run) && run[0] == s
        ensures run[|run| - 1].lock != None
      {
        WedgedAlong(run, 0, |run| - 1, t);
      }
    } else if s.lock == None {
      assert IsRun([s]) && [s][0] == s;
    } else {
      var t := s.lock.value;
      assert Owns(s.pc[t]) && !Wedged(s, t);
      var k := s.pc[t].kind;
      var held := Moved(s, t, Holds(k), s.lock, s.connected);
      var freed := Moved(held, t, Idle, None, s.connected);
      assert Next(held, t, freed);
      if s.pc[t].Native? {
        assert Next(s, t, held);
        RunOfThree(s, held, freed);
      } else {
        assert held.pc == s.pc;
        RunOfThree(s, freed, freed);
      }
    }
  }

  /** Whenever the lock is free, one POST /reconnect from an idle thread is enough to wedge the bridge. */
  lemma ReconnectWedges(s: State, t: Thread)
    requires Inv(s) && s.lock == None && t in s.pc && s.pc[t] == Idle
    ensures exists run: seq<State> :: IsRun(run) && run[0] == s && Wedged(run[|run| - 1], t)
  {
    var wants := Moved(s, t, Wants(PostReconnect), None, s.connected);
    var holds := Moved(wants, t, Holds(PostReconnect), Some(t), s.connected);
    assert Next(s, t, wants) && Next(wants, t, holds);
    RunOfThree(s, wants, holds);
  }

  /******* Which requests wedge *******/

  predicate Serves(pc: Pc, kind: Kind) {
    pc in {Idle, Wants(kind), Holds(kind), Native(kind), Nested(kind), NestedHolds(kind), NestedNative(kind)}
  }

  // Only thread `t` moves, serving requests of one kind, and connection and credentials stay.
  ghost predicate Alone(run: seq<State>, t: Thread, kind: Kind) {
    && IsRun(run)
    && (forall i :: 0 <= i < |run| ==> SameSetting(run[i], run[0]) && t in run[i].pc && Serves(run[i].pc[t], kind))
    && (forall i :: 0 <= i < |run| - 1 ==> Next(run[i], t, run[i + 1]))
  }

  predicate SameSetting(s: State, n: State) { s.connected == n.connected && s.configured == n.configured }

  lemma NestStep(s: State, t: Thread, n: State, kind: Kind)
    requires Inv(s) && Next(s, t, n) && Serves(s.pc[t], kind) && n.pc[t].Nested?
    ensures MayNest(kind, s)
  {
  }

  lemma AloneNests(run: seq<State>, t: Thread, kind: Kind, i: nat)
    requires Alone(run, t, kind) && Inv(run[0]) && run[0].pc[t] == Idle && i < |run|
    ensures run[i].pc[t].Nested? ==> MayNest(kind, run[0])
  {
    if i > 0 && run[i].pc[t].Nested? {
      InvAlong(run, i - 1);
      NestStep(run[i - 1], t, run[i], kind);
    }
  }

  lemma AloneWedges(s: State, t: Thread, kind: Kind)
    requires Inv(s) && s.lock == None && t in s.pc && s.pc[t] == Idle && MayNest(kind, s)
    ensures exists run: seq<State> :: Alone(run, t, kind) && run[0] == s && Wedged(run[|run| - 1], t)
  {
    var wants := Moved(s, t, Wants(kind), None, s.connected);
    var holds := Moved(wants, t, Holds(kind), Some(t), s.connected);
    var nested := Moved(holds, t, Nested(kind), Some(t), s.connected);
    assert Next(s, t, wants) && Next(wants, t, holds) && Next(holds, t, nested);
    var run := [s, wants, holds, nested];
    assert IsRun(run) by {
      forall i | 0 <= i < 3 ensures Steps(run[i], run[i + 1]) {
        assert Next(run[i], t, run[i + 1]);
      }
    }
    assert Alone(run, t, kind);
    assert Wedged(run[|run| - 1], t);
  }

  /**
   Served by itself, with the connection as it finds it, a request can wedge its thread iff it
   disconnects, or it makes sure of a connection that is down and for which credentials are known.
   */
  lemma WedgesExactly(s: State, t: Thread, kind: Kind)
    requires Inv(s) && s.lock == None && t in s.pc && s.pc[t] == Idle
    ensures (exists run: seq<State> ::
               Alone(run, t, kind) && run[0] == s && Wedged(run[|run| - 1], t))
            <==> || kind == PostReconnect || kind == PostCredentials
                 || (kind in {Pump, TickRequest, Get, Post} && !s.connected && s.configured)
  {
    if MayNest(kind, s) {
      AloneWedges(s, t, kind);
    }
    forall run: seq<State> | Alone(run, t, kind) && run[0] == s && Wedged(run[|run| - 1], t)
      ensures MayNest(kind, s)
    {
      AloneNests(run, t, kind, |run| - 1);
      assert Serves(run[|run| - 1].pc[t], kind);
    }
  }

  // The connection is never down while credentials are known, and nobody posts to /reconnect or
  // /credentials.
  ghost predicate Undisturbed(run: seq<State>) {
    forall i :: 0 <= i < |run| ==> !EnsureTakesLock(run[i]) && Harmless(run[i])
  }

  ghost predicate Harmless(s: State) {
    forall t :: t in s.pc ==> s.pc[t] != Holds(PostReconnect) && s.pc[t] != Holds(PostCredentials)
  }

  /** In such a run, however the threads interleave, no thread is ever wedged. */
  lemma {:induction false} NeverWedged(run: seq<State>, i: nat, t: Thread)
    requires IsRun(run) && Init(run[0]) && Undisturbed(run) && i < |run|
    ensures t in run[i].pc ==> !run[i].pc[t].Nested?
    ensures !Wedged(run[i], t)
    decreases i
  {
    assert Harmless(run[i]);
    if i > 0 {
      NeverWedged(run, i - 1, t);
      assert Harmless(run[i - 1]) && Steps(run[i - 1], run[i]);
      var u :| Next(run[i - 1], u, run[i]);
    }
  }
}
