/** An access gateway: one SSH connection shared by the tunnels opened through it, dialled when the first tunnel
    needs it and closed when a closer finds no tunnel left. Each method runs under the gateway's mutex, so a run
    is a sequence of whole method calls. */
module Gateways {
  import opened Wrappers

  datatype Message = Unused | InUse | Unavailable

  /** A tunnel listens on its own listener and forwards over the SSH client it was started with. */
  datatype Tunnel = Tunnel(listener: nat, via: nat, remoteHost: string, remotePort: int)

  /** The gateway's fields, and of its environment the clients and listeners that are not closed; both are
      numbered in the order of their creation. */
  datatype State = State(connected: bool, message: Message, sshClient: Option<nat>, tunnels: map<string, Tunnel>,
                         clients: set<nat>, dialled: nat, listening: set<nat>, bound: nat)

  const INITIAL := State(false, Unused, None, map[], {}, 0, {}, 0)

  // ---------- one call ----------

  function Dial(s: State): State {
    s.(connected := true, message := InUse, sshClient := Some(s.dialled),
       clients := s.clients + {s.dialled}, dialled := s.dialled + 1)
  }

  function Listen(s: State, id: string, ip: string, port: int): State {
    s.(tunnels := s.tunnels[id := Tunnel(s.bound, if s.sshClient.Some? then s.sshClient.value else 0, ip, port)],
       listening := s.listening + {s.bound}, bound := s.bound + 1)
  }

  /** OpenSshTunnel, where dialling succeeds if dials and finding a port, the host name and listening succeed
      if binds. */
  function Open(s: State, id: string, ip: string, port: int, dials: bool, binds: bool): State {
    if !s.connected && !dials then s.(message := Unavailable)
    else
      var s' := if s.connected then s else Dial(s);
      if binds then Listen(s', id, ip, port) else s'
  }

  function Close(s: State, id: string): State {
    var s' := if id in s.tunnels
              then s.(tunnels := s.tunnels - {id}, listening := s.listening - {s.tunnels[id].listener})
              else s;
    if s'.tunnels == map[]
    then s'.(connected := false, message := Unused,
             clients := if s'.sshClient.Some? then s'.clients - {s'.sshClient.value} else s'.clients)
    else s'
  }

  /** Under the id there is a tunnel to the address over the live client, with a listener of its own; the other
      tunnels and listeners are as they were. */
  predicate Opened(s: State, t: State, id: string, ip: string, port: int, listener: nat) {
    && id in t.tunnels
    && t.tunnels[id].remoteHost == ip && t.tunnels[id].remotePort == port && t.tunnels[id].listener == listener
    && t.connected && t.sshClient == Some(t.tunnels[id].via)
    && t.tunnels - {id} == s.tunnels - {id}
    && t.listening == s.listening + {listener} && listener >= s.bound
  }

  /** A client that was not there before is the gateway's. */
  predicate DialledOnce(s: State, t: State) {
    && t.connected && t.message == InUse && t.sshClient.Some?
    && t.clients == s.clients + {t.sshClient.value} && t.sshClient.value >= s.dialled
  }

  class Gateway {
    var connected: bool
    var message: Message
    var sshClient: Option<nat>
    var tunnels: map<string, Tunnel>
    var clients: set<nat>
    var dialled: nat
    var listening: set<nat>
    var bound: nat

    ghost function Now(): State
      reads this
    {
      State(connected, message, sshClient, tunnels, clients, dialled, listening, bound)
    }

    constructor ()
      ensures Now() == INITIAL
    {
      connected, message, sshClient, tunnels := false, Unused, None, map[];
      clients, dialled, listening, bound := {}, 0, {}, 0;
    }

    method OpenSshTunnel(id: string, ip: string, port: int, dials: bool, binds: bool)
      returns (exposed: Option<nat>)
      requires connected ==> sshClient.Some?
      modifies this
      ensures Now() == Open(old(Now()), id, ip, port, dials, binds)
      ensures exposed.Some? <==> (old(connected) || dials) && binds
      ensures exposed.Some? ==> Opened(old(Now()), Now(), id, ip, port, exposed.value)
      ensures exposed.None? ==> tunnels == old(tunnels) && listening == old(listening)
      ensures !old(connected) && !dials ==> clients == old(clients) && !connected && message == Unavailable
      ensures !old(connected) && dials ==> DialledOnce(old(Now()), Now())
      ensures old(connected) ==> connected && sshClient == old(sshClient) && clients == old(clients)
    {
      if !connected {
        if !dials {
          connected := false;
          message := Unavailable;
          return None;
        }
        connected := true;
        sshClient := Some(dialled);
        clients := clients + {dialled};
        dialled := dialled + 1;
        message := InUse;
      }
      if !binds {
        return None;
      }
      var listener := bound;
      bound := bound + 1;
      listening := listening + {listener};
      tunnels := tunnels[id := Tunnel(listener, sshClient.value, ip, port)];
      return Some(listener);
    }

    method CloseSshTunnel(id: string)
      modifies this
      ensures Now() == Close(old(Now()), id)
      ensures tunnels == old(tunnels) - {id}
      ensures listening == old(listening) - if id in old(tunnels) then {old(tunnels)[id].listener} else {}
      ensures tunnels != map[] ==> connected == old(connected) && clients == old(clients) && message == old(message)
      ensures tunnels == map[] ==> !connected && message == Unused
      ensures tunnels == map[] && sshClient.Some? ==> sshClient.value !in clients
    {
      if id in tunnels {
        listening := listening - {tunnels[id].listener};
        tunnels := tunnels - {id};
      }
      if |tunnels| == 0 {
        if sshClient.Some? {
          clients := clients - {sshClient.value};
        }
        connected := false;
        message := Unused;
      }
      assert |tunnels| == 0 <==> tunnels == map[];
    }

    /** Closing the gateway closes its tunnels one by one, in any order. With no tunnel it does nothing, even
        when the gateway is connected. */
    method CloseAll()
      requires Held(Now())
      modifies this
      ensures Held(Now()) && tunnels == map[]
      ensures old(tunnels) == map[] ==> Now() == old(Now())
      ensures old(tunnels) != map[] ==> !connected && clients == {} && listening == {}
    {
      ghost var start := Now();
      var todo := tunnels.Keys;
      while todo != {}
        invariant Closing(start, Now(), todo)
        decreases |todo|
      {
        var id :| id in todo;
        ClosingNext(start, Now(), todo, id);
        CloseSshTunnel(id);
        todo := todo - {id};
      }
      assert tunnels == map[];
      if !connected {
        NothingLeft(Now());
      }
    }
  }

  // ---------- what every call keeps ----------

  /** The live listeners are the tunnels', one each. */
  ghost predicate NoLeak(s: State) {
    && (forall id :: id in s.tunnels ==> s.tunnels[id].listener in s.listening)
    && (forall l :: l in s.listening ==> exists id :: id in s.tunnels && s.tunnels[id].listener == l)
    && (forall i, j :: i in s.tunnels && j in s.tunnels && s.tunnels[i].listener == s.tunnels[j].listener ==> i == j)
  }

  ghost predicate Numbered(s: State) {
    && (forall c :: c in s.clients ==> c < s.dialled)
    && (forall l :: l in s.listening ==> l < s.bound)
  }

  /** At most one client is live: the gateway's, while it is connected; every tunnel forwards over it. */
  ghost predicate Shared(s: State) {
    && (s.connected ==> s.sshClient.Some? && s.clients == {s.sshClient.value})
    && (!s.connected ==> s.clients == {} && s.tunnels == map[])
    && (forall id :: id in s.tunnels ==> s.sshClient == Some(s.tunnels[id].via))
    && (s.message == InUse <==> s.connected)
  }

  ghost predicate Held(s: State) {
    NoLeak(s) && Numbered(s) && Shared(s)
  }

  lemma DialHeld(s: State)
    requires Held(s) && !s.connected
    ensures Held(Dial(s))
  {}

  lemma ListenHeld(s: State, id: string, ip: string, port: int)
    requires Held(s) && s.connected && id !in s.tunnels
    ensures Held(Listen(s, id, ip, port))
  {
    var t := Listen(s, id, ip, port);
    assert t.tunnels[id].listener == s.bound;
    forall l | l in t.listening ensures exists i :: i in t.tunnels && t.tunnels[i].listener == l {
      if l != s.bound {
        var i :| i in s.tunnels && s.tunnels[i].listener == l;
        assert i in t.tunnels && t.tunnels[i].listener == l;
      }
    }
  }

  lemma OpenHeld(s: State, id: string, ip: string, port: int, dials: bool, binds: bool)
    requires Held(s) && id !in s.tunnels
    ensures Held(Open(s, id, ip, port, dials, binds))
  {
    if s.connected || dials {
      var s' := if s.connected then s else Dial(s);
      if !s.connected {
        DialHeld(s);
      }
      if binds {
        ListenHeld(s', id, ip, port);
      }
    }
  }

  lemma CloseHeld(s: State, id: string)
    requires Held(s)
    ensures Held(Close(s, id))
  {
    var t := Close(s, id);
    forall l | l in t.listening ensures exists i :: i in t.tunnels && t.tunnels[i].listener == l {
      var i :| i in s.tunnels && s.tunnels[i].listener == l;
      assert i in t.tunnels && t.tunnels[i].listener == l;
    }
  }

  ghost predicate Closing(start: State, s: State, todo: set<string>) {
    && Held(s) && s.tunnels.Keys == todo
    && (start.tunnels == map[] ==> s == start)
    && (start.tunnels != map[] && s.tunnels == map[] ==> !s.connected)
  }

  lemma ClosingNext(start: State, s: State, todo: set<string>, id: string)
    requires Closing(start, s, todo) && id in todo
    ensures Closing(start, Close(s, id), todo - {id})
  {
    CloseHeld(s, id);
  }

  lemma NothingLeft(s: State)
    requires Held(s) && s.tunnels == map[] && !s.connected
    ensures s.clients == {} && s.listening == {}
  {}

  /** Opening leaves a listener without a tunnel exactly when it succeeds with an id that has one already. */
  lemma OpenLeaksExactly(s: State, id: string, ip: string, port: int, dials: bool, binds: bool)
    requires Held(s)
    ensures NoLeak(Open(s, id, ip, port, dials, binds)) <==> !(binds && id in s.tunnels)
  {
    if id !in s.tunnels {
      OpenHeld(s, id, ip, port, dials, binds);
    } else if binds {
      var lost := s.tunnels[id].listener;
      var t := Open(s, id, ip, port, dials, binds);
      assert lost in t.listening;
      forall i | i in t.tunnels ensures t.tunnels[i].listener != lost {
      }
    }
  }

  // ---------- runs ----------

  /** Callers open a tunnel and then close it by the same id, whatever the opening returned. The gateway may
      also be closed from outside, which closes tunnels at any time. */
  datatype Event =
    | Begin(id: string, ip: string, port: int, dials: bool, binds: bool)
    | End(id: string)
    | Kill(id: string)

  /** The gateway and the ids between their opening and their closing. */
  datatype System = System(g: State, brackets: set<string>)

  predicate Allowed(m: System, e: Event) {
    match e
    case Begin(id, _, _, _, _) => id !in m.brackets
    case End(id) => id in m.brackets
    case Kill(_) => true
  }

  function Step(m: System, e: Event): System {
    match e
    case Begin(id, ip, port, dials, binds) => System(Open(m.g, id, ip, port, dials, binds), m.brackets + {id})
    case End(id) => System(Close(m.g, id), m.brackets - {id})
    case Kill(id) => System(Close(m.g, id), m.brackets)
  }

  function Run(m: System, es: seq<Event>): System
    decreases |es|
  {
    if es == [] then m else Run(Step(m, es[0]), es[1..])
  }

  predicate AllAllowed(m: System, es: seq<Event>)
    decreases |es|
  {
    es == [] || (Allowed(m, es[0]) && AllAllowed(Step(m, es[0]), es[1..]))
  }

  ghost predicate Invariant(m: System) {
    && Held(m.g)
    && m.g.tunnels.Keys <= m.brackets
    && (m.g.connected ==> m.brackets != {})
  }

  lemma StepInvariant(m: System, e: Event)
    requires Invariant(m) && Allowed(m, e)
    ensures Invariant(Step(m, e))
  {
    match e
    case Begin(id, ip, port, dials, binds) =>
      OpenHeld(m.g, id, ip, port, dials, binds);
      assert id in Step(m, e).brackets;
    case End(id) =>
      CloseHeld(m.g, id);
      var t := Close(m.g, id);
      if t.tunnels != map[] {
        var other :| other in t.tunnels.Keys;
        assert other in m.brackets - {id};
      }
    case Kill(id) =>
      CloseHeld(m.g, id);
  }

  lemma {:induction false} RunInvariant(m: System, es: seq<Event>)
    requires Invariant(m) && AllAllowed(m, es)
    ensures Invariant(Run(m, es))
    decreases |es|
  {
    if es == [] {
    } else {
      StepInvariant(m, es[0]);
      RunInvariant(Step(m, es[0]), es[1..]);
    }
  }

  /** In every interleaving of brackets the live listeners are the tunnels', a tunnel has a live connection, and
      when no bracket is open nothing is left open. */
  lemma BracketDiscipline(es: seq<Event>)
    requires AllAllowed(System(INITIAL, {}), es)
    ensures var m := Run(System(INITIAL, {}), es);
            && NoLeak(m.g) && Shared(m.g)
            && (m.brackets == {} ==> (
                  && m.g.tunnels == map[] && m.g.listening == {}
                  && !m.g.connected && m.g.clients == {} && m.g.message != InUse))
  {
    RunInvariant(System(INITIAL, {}), es);
    var m := Run(System(INITIAL, {}), es);
    if m.brackets == {} {
      assert m.g.tunnels.Keys == {};
    }
  }

  /** A bracket begins with its tunnel if dialling and listening succeed, and ends without it; neither touches the
      other tunnels. */
  lemma BracketOpens(m: System, id: string, ip: string, port: int, dials: bool, binds: bool)
    requires Invariant(m) && id !in m.brackets
    ensures var t := Step(m, Begin(id, ip, port, dials, binds));
            && t.brackets == m.brackets + {id}
            && (if (m.g.connected || dials) && binds
                then id in t.g.tunnels && Opened(m.g, t.g, id, ip, port, t.g.tunnels[id].listener)
                else t.g.tunnels == m.g.tunnels)
  {}

  lemma BracketCloses(m: System, id: string)
    ensures Step(m, End(id)).brackets == m.brackets - {id} && Step(m, Kill(id)).brackets == m.brackets
    ensures Step(m, End(id)).g.tunnels == m.g.tunnels - {id} && Step(m, Kill(id)).g.tunnels == m.g.tunnels - {id}
  {}

  predicate Mentions(e: Event, id: string) {
    e.id == id
  }

  /** Whatever other callers do, an open tunnel stays as it was opened, with its listener and client live. */
  lemma {:induction false} TunnelStaysUp(m: System, es: seq<Event>, id: string)
    requires Invariant(m) && AllAllowed(m, es) && id in m.g.tunnels
    requires forall e :: e in es ==> !Mentions(e, id)
    ensures var g := Run(m, es).g;
            && id in g.tunnels && g.tunnels[id] == m.g.tunnels[id]
            && g.connected && g.tunnels[id].listener in g.listening && g.tunnels[id].via in g.clients
    decreases |es|
  {
    if es != [] {
      StepInvariant(m, es[0]);
      assert es[0] in es && !Mentions(es[0], id);
      var m' := Step(m, es[0]);
      assert id in m'.g.tunnels && m'.g.tunnels[id] == m.g.tunnels[id];
      TunnelStaysUp(m', es[1..], id);
    } else {
      assert m.g.connected;
    }
  }
}
