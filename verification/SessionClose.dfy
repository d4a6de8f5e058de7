/** Closing a session: the live registry, the session's observers and its database row, under concurrent
    closers, joining and leaving observers. */
module SessionClose {
  import opened Wrappers

  // ---------- the database row ----------

  datatype Status = NoConnect | Connecting | Connected | Disconnected

  datatype Row = Row(status: Status, code: int, message: string, secretsCleared: bool)

  /** DisDBSess, one transaction: a row still connecting is deleted, a disconnected one is left alone, any
      other becomes disconnected. gorm does not write a zero code or an empty message. */
  function DisDBSess(row: Option<Row>, code: int, reason: string): Option<Row> {
    match row
    case None => None
    case Some(r) =>
      if r.status == Disconnected then row
      else if r.status == Connecting then None
      else
        Some(Row(Disconnected, if code == 0 then r.code else code, if reason == "" then r.message else reason, true))
  }

  predicate Settled(row: Option<Row>) {
    row.None? || row.value.status == Disconnected
  }

  // ---------- the registry, one call at a time ----------

  type Handle = nat

  /** A registered session: its own connection and those watching it, by observer id. */
  datatype Live = Live(handle: Handle, observers: map<string, Handle>)

  /** A closing frame, by whom it was written to. */
  datatype Closing = Main(id: string, code: int, reason: string)
                   | Observer(id: string, key: string, code: int, reason: string)

  function Observers(id: string, keys: set<string>, code: int, reason: string): set<Closing> {
    set k | k in keys :: Observer(id, k, code, reason)
  }

  class SessionService {
    var sessions: map<string, Live>
    var rows: map<string, Row>
    var closed: set<Handle>
    var frames: multiset<Closing>

    constructor (rows: map<string, Row>)
      ensures sessions == map[] && this.rows == rows && closed == {} && frames == multiset{}
    {
      sessions, this.rows, closed, frames := map[], rows, {}, multiset{};
    }

    function RowOf(id: string): Option<Row>
      reads this
    {
      if id in rows then Some(rows[id]) else None
    }

    method WriteCloseMessage(frame: Closing)
      modifies this`frames
      ensures frames == old(frames) + multiset{frame}
    {
      frames := frames + multiset{frame};
    }

    /** Manager.Clear of the session's observers. */
    method ClearObservers(id: string)
      requires id in sessions
      modifies this`sessions, this`closed
      ensures sessions == old(sessions)[id := old(sessions)[id].(observers := map[])]
      ensures closed == old(closed) + old(sessions)[id].observers.Values
    {
      var todo := sessions[id].observers;
      ghost var all := todo;
      while todo.Keys != {}
        invariant todo.Keys <= all.Keys && forall k :: k in todo ==> todo[k] == all[k]
        invariant id in sessions && sessions == old(sessions)[id := old(sessions)[id].(observers := todo)]
        invariant closed == old(closed) + (set k | k in all && k !in todo :: all[k])
        decreases |todo.Keys|
      {
        var key :| key in todo.Keys;
        closed := closed + {todo[key]};
        assert |todo.Keys - {key}| < |todo.Keys|;
        todo := todo - {key};
        sessions := sessions[id := sessions[id].(observers := todo)];
      }
      assert todo == map[];
      assert (set k | k in all && k !in todo :: all[k]) == all.Values;
    }

    /** Manager.Del. */
    method Del(id: string)
      modifies this`sessions, this`closed
      ensures sessions == old(sessions) - {id}
      ensures closed == old(closed)
        + if id in old(sessions) then {old(sessions)[id].handle} + old(sessions)[id].observers.Values else {}
    {
      if id in sessions {
        closed := closed + {sessions[id].handle};
        ClearObservers(id);
      }
      sessions := sessions - {id};
    }

    /** A whole close, undisturbed: closing frames to the session and to each observer, then the registry,
        then the row. Closing an id that is not registered only settles its row. */
    method CloseSessionById(id: string, code: int, reason: string)
      modifies this
      ensures sessions == old(sessions) - {id}
      ensures closed == old(closed)
        + if id in old(sessions) then {old(sessions)[id].handle} + old(sessions)[id].observers.Values else {}
      ensures frames == old(frames)
        + if id in old(sessions)
          then multiset{Main(id, code, reason)}
               + multiset(Observers(id, old(sessions)[id].observers.Keys, code, reason))
          else multiset{}
      ensures RowOf(id) == DisDBSess(old(RowOf(id)), code, reason)
      ensures id in old(rows) && old(rows)[id].status == Connecting ==> id !in rows
      ensures id in old(rows) && old(rows)[id].status == Disconnected ==> id in rows && rows[id] == old(rows)[id]
      ensures id in old(rows) && old(rows)[id].status != Connecting && old(rows)[id].status != Disconnected ==>
                && id in rows && rows[id].status == Disconnected && rows[id].secretsCleared
                && rows[id].code == (if code != 0 then code else old(rows)[id].code)
                && rows[id].message == (if reason != "" then reason else old(rows)[id].message)
      ensures id !in old(rows) ==> id !in rows
      ensures forall other :: other != id ==> RowOf(other) == old(RowOf(other))
    {
      if id in sessions {
        WriteCloseMessage(Main(id, code, reason));
        WriteToObservers(id, sessions[id].observers.Keys, code, reason);
      }
      Del(id);
      match DisDBSess(RowOf(id), code, reason)
      case None => rows := rows - {id};
      case Some(row) => rows := rows[id := row];
    }

    method WriteToObservers(id: string, keys: set<string>, code: int, reason: string)
      modifies this`frames
      ensures frames == old(frames) + multiset(Observers(id, keys, code, reason))
    {
      var todo := keys;
      while todo != {}
        invariant todo <= keys
        invariant frames == old(frames) + multiset(Observers(id, keys - todo, code, reason))
        decreases |todo|
      {
        var key :| key in todo;
        WriteCloseMessage(Observer(id, key, code, reason));
        assert Observers(id, keys - (todo - {key}), code, reason)
            == Observers(id, keys - todo, code, reason) + {Observer(id, key, code, reason)};
        todo := todo - {key};
      }
    }
  }

  // ---------- every interleaving, for one registered id ----------

  /** Where the closer holding the mutex stands. Range visits every key that stays present, may visit one
      that is added meanwhile, and visits no key twice. */
  datatype Pc =
    | Looking
    | Framing(todo: set<string>, seen: set<string>)
    | Deleting
    | Clearing(todo: set<string>)
    | Unlisting
    | Saving

  datatype Closer = Closer(pc: Pc, code: int, reason: string)

  /** `snapshot` is the set of observers when a closer first found the session; `left` are observers that
      went by themselves, closing their own connection; `saved` counts completed closes. */
  datatype State = State(
    registered: bool, handleClosed: bool, observers: set<string>, closedObservers: set<string>, left: set<string>,
    joined: set<string>, mainFrames: nat, framed: multiset<string>, row: Option<Row>,
    closer: Option<Closer>, saved: nat, snapshot: Option<set<string>>)

  datatype Event =
    | Begin(code: int, reason: string)
    | Look
    | Frame(key: string)
    | EndFrames
    | Delete
    | Clear(key: string)
    | EndClear
    | Unlist
    | Save
    | Join(key: string)
    | Leave(key: string)
    | SetStatus(status: Status)
    | DropRow

  function At(s: State, pc: Pc): State
    requires s.closer.Some?
  {
    s.(closer := Some(s.closer.value.(pc := pc)))
  }

  /** A step that is not enabled changes nothing. A disconnected row is not connected again. */
  function Step(s: State, e: Event): State {
    if e.Begin? then
      if s.closer.None? then s.(closer := Some(Closer(Looking, e.code, e.reason))) else s
    else if e.Join? then
      if e.key in s.joined then s else s.(observers := s.observers + {e.key}, joined := s.joined + {e.key})
    else if e.Leave? then
      if e.key !in s.observers then s
      else
        s.(observers := s.observers - {e.key}, closedObservers := s.closedObservers + {e.key}, left := s.left + {e.key})
    else if e.SetStatus? then
      if s.row.None? || s.row.value.status == Disconnected || e.status == Disconnected then s
      else s.(row := Some(s.row.value.(status := e.status)))
    else if e.DropRow? then s.(row := None)
    else if s.closer.None? then s
    else CloserStep(s, e)
  }

  function CloserStep(s: State, e: Event): State
    requires s.closer.Some?
  {
    match (s.closer.value.pc, e)
    case (Looking, Look) =>
      if s.registered
      then At(s, Framing(s.observers, {})).(
             mainFrames := s.mainFrames + 1,
             snapshot := if s.snapshot.None? then Some(s.observers) else s.snapshot)
      else At(s, Deleting)
    case (Framing(todo, seen), Frame(key)) =>
      if key in seen then s
      else At(s, Framing(todo - {key}, seen + {key})).(
             framed := if key in s.observers then s.framed + multiset{key} else s.framed)
    case (Framing(todo, seen), EndFrames) => if todo == {} then At(s, Deleting) else s
    case (Deleting, Delete) =>
      if s.registered then At(s, Clearing(s.observers)).(handleClosed := true) else At(s, Unlisting)
    case (Clearing(todo), Clear(key)) =>
      if key in s.observers
      then At(s, Clearing(todo - {key})).(
             observers := s.observers - {key}, closedObservers := s.closedObservers + {key})
      else At(s, Clearing(todo - {key}))
    case (Clearing(todo), EndClear) => if todo == {} then At(s, Unlisting) else s
    case (Unlisting, Unlist) => At(s, Saving).(registered := false)
    case (Saving, Save) =>
      s.(row := DisDBSess(s.row, s.closer.value.code, s.closer.value.reason), closer := None, saved := s.saved + 1)
    case _ => s
  }

  function Run(s: State, events: seq<Event>): State
    decreases |events|
  {
    if events == [] then s else Run(Step(s, events[0]), events[1..])
  }

  /** A registered session with some observers, no closer yet. */
  predicate Initial(s: State) {
    && s.registered && !s.handleClosed && s.closedObservers == {} && s.left == {} && s.joined == s.observers
    && s.mainFrames == 0 && s.framed == multiset{} && s.closer.None? && s.saved == 0 && s.snapshot.None?
  }

  /** Each observer present when the close began has had its frame, or had gone by itself. */
  predicate Told(s: State, keys: set<string>) {
    forall k :: k in keys ==> s.framed[k] == 1 || k in s.left
  }

  ghost predicate Invariant(s: State) {
    && s.observers <= s.joined && s.closedObservers <= s.joined
    && (!s.handleClosed ==> s.closedObservers <= s.left)
    && (forall k :: s.framed[k] <= 1)
    && (forall k :: k in s.framed ==> k in s.joined)
    && (s.snapshot.Some? ==> s.mainFrames == 1 && s.snapshot.value <= s.observers + s.closedObservers)
    && (s.snapshot.None? ==> NotBegun(s))
    && (s.snapshot.Some? && s.registered ==> Underway(s, s.snapshot.value))
    && (s.snapshot.Some? && !s.registered ==> Finished(s, s.snapshot.value))
    && (s.saved > 0 ==> !s.registered && Settled(s.row))
  }

  predicate NotBegun(s: State) {
    && s.registered && !s.handleClosed && s.mainFrames == 0 && s.framed == multiset{} && s.saved == 0
    && (s.closer.Some? ==> s.closer.value.pc == Looking)
  }

  predicate Underway(s: State, keys: set<string>) {
    && s.closer.Some?
    && match s.closer.value.pc
       case Framing(todo, seen) =>
         && !s.handleClosed
         && Told(s, keys - todo)
         && (forall k :: k in s.framed ==> k in seen)
         && todo !! seen
       case Deleting => Told(s, keys)
       case Clearing(todo) => s.handleClosed && Told(s, keys) && keys <= todo + s.closedObservers
       case Unlisting => s.handleClosed && Told(s, keys) && keys <= s.closedObservers
       case _ => false
  }

  predicate Finished(s: State, keys: set<string>) {
    && s.handleClosed && Told(s, keys) && keys <= s.closedObservers
    && (s.closer.Some? ==> !s.closer.value.pc.Framing? && !s.closer.value.pc.Clearing?)
  }

  predicate Outside(e: Event) {
    e.Begin? || e.Join? || e.Leave? || e.SetStatus? || e.DropRow?
  }

  lemma OutsideStepKeeps(s: State, e: Event)
    requires Invariant(s) && Outside(e)
    ensures Invariant(Step(s, e))
  {}

  lemma FramingStepKeeps(s: State, e: Event)
    requires Invariant(s) && !Outside(e) && s.closer.Some? && s.closer.value.pc.Framing?
    ensures Invariant(CloserStep(s, e))
  {}

  lemma OtherStepKeeps(s: State, e: Event)
    requires Invariant(s) && !Outside(e) && s.closer.Some? && !s.closer.value.pc.Framing?
    ensures Invariant(CloserStep(s, e))
  {}

  lemma StepKeepsInvariant(s: State, e: Event)
    requires Invariant(s)
    ensures Invariant(Step(s, e))
  {
    if Outside(e) {
      OutsideStepKeeps(s, e);
    } else if s.closer.Some? {
      if s.closer.value.pc.Framing? {
        FramingStepKeeps(s, e);
      } else {
        OtherStepKeeps(s, e);
      }
    }
  }

  lemma {:induction false} RunKeepsInvariant(s: State, events: seq<Event>)
    requires Invariant(s)
    ensures Invariant(Run(s, events))
    decreases |events|
  {
    if events == [] {
    } else {
      StepKeepsInvariant(s, events[0]);
      RunKeepsInvariant(Step(s, events[0]), events[1..]);
    }
  }

  /** Once disconnected, a row keeps its code and reason through every later close, or is deleted. */
  predicate Successor(before: Option<Row>, after: Option<Row>) {
    Settled(before) ==> after == before || after.None?
  }

  lemma {:induction false} RecordedOnce(s: State, events: seq<Event>)
    requires Settled(s.row)
    ensures Successor(s.row, Run(s, events).row)
    decreases |events|
  {
    if events == [] {
    } else {
      assert Settled(Step(s, events[0]).row) && Successor(s.row, Step(s, events[0]).row);
      RecordedOnce(Step(s, events[0]), events[1..]);
    }
  }

  /** The codes and reasons of the closes begun in a run. */
  function Begun(events: seq<Event>): set<(int, string)> {
    set e | e in events && e.Begin? :: (e.code, e.reason)
  }

  /** The row carries this code and reason, as far as they are not empty. */
  predicate Carries(row: Row, close: (int, string)) {
    (close.0 != 0 ==> row.code == close.0) && (close.1 != "" ==> row.message == close.1)
  }

  /** Whoever closes has one of these codes and reasons, and a disconnected row has its secrets cleared and carries
      one of them. */
  predicate Recorded(s: State, closes: set<(int, string)>) {
    && (s.closer.Some? ==> (s.closer.value.code, s.closer.value.reason) in closes)
    && (s.row.Some? && s.row.value.status == Disconnected ==>
          s.row.value.secretsCleared && exists close :: close in closes && Carries(s.row.value, close))
  }

  lemma StepRecorded(s: State, e: Event, closes: set<(int, string)>)
    requires Recorded(s, closes)
    ensures Recorded(Step(s, e), closes + if e.Begin? then {(e.code, e.reason)} else {})
  {
    var all := closes + if e.Begin? then {(e.code, e.reason)} else {};
    if s.row.Some? && s.row.value.status == Disconnected {
      var close :| close in closes && Carries(s.row.value, close);
      assert close in all;
    }
    if e.Save? && s.closer.Some? {
      SaveRecorded(s, e, all);
    }
  }

  lemma SaveRecorded(s: State, e: Event, closes: set<(int, string)>)
    requires Recorded(s, closes) && e.Save? && s.closer.Some?
    ensures Recorded(CloserStep(s, e), closes)
  {
    assert (s.closer.value.code, s.closer.value.reason) in closes;
  }

  lemma {:induction false} RunRecorded(s: State, events: seq<Event>, closes: set<(int, string)>)
    requires Recorded(s, closes)
    ensures Recorded(Run(s, events), closes + Begun(events))
    decreases |events|
  {
    if events == [] {
      assert closes + Begun(events) == closes;
    } else {
      var e := events[0];
      var added := if e.Begin? then {(e.code, e.reason)} else {};
      StepRecorded(s, e, closes);
      RunRecorded(Step(s, e), events[1..], closes + added);
      assert events == [e] + events[1..];
      assert closes + added + Begun(events[1..]) == closes + Begun(events);
    }
  }

  /** Every interleaving: a row that the closes of a run have disconnected has its secrets cleared, and its code and
      reason are those of one of these closes. */
  lemma CloseRecords(s0: State, events: seq<Event>)
    requires Initial(s0) && (s0.row.Some? ==> s0.row.value.status != Disconnected)
    ensures var row := Run(s0, events).row;
            row.Some? && row.value.status == Disconnected ==>
              row.value.secretsCleared && exists close :: close in Begun(events) && Carries(row.value, close)
  {
    RunRecorded(s0, events, {});
    assert {} + Begun(events) == Begun(events);
  }

  function Stage(pc: Pc): (stage: nat) {
    match pc
    case Looking => 6
    case Framing(_, _) => 5
    case Deleting => 4
    case Clearing(_) => 3
    case Unlisting => 2
    case Saving => 1
  }

  function ToVisit(pc: Pc): set<string> {
    match pc
    case Framing(todo, _) => todo
    case Clearing(todo) => todo
    case _ => {}
  }

  /** What the closer may do next. */
  function Next(pc: Pc, key: string): Event {
    match pc
    case Looking => Look
    case Framing(todo, _) => if todo == {} then EndFrames else Frame(key)
    case Deleting => Delete
    case Clearing(todo) => if todo == {} then EndClear else Clear(key)
    case Unlisting => Unlist
    case Saving => Save
  }

  /** The step is enabled and brings the closer nearer to the end. */
  lemma NextAdvances(s: State, key: string)
    requires Invariant(s) && s.closer.Some? && !s.closer.value.pc.Saving?
    requires ToVisit(s.closer.value.pc) != {} ==> key in ToVisit(s.closer.value.pc)
    ensures var pc, t := s.closer.value.pc, CloserStep(s, Next(s.closer.value.pc, key));
            && t.closer.Some? && t.saved == s.saved
            && (Stage(t.closer.value.pc) < Stage(pc)
                || (key in ToVisit(pc) && Stage(t.closer.value.pc) == Stage(pc)
                    && ToVisit(t.closer.value.pc) == ToVisit(pc) - {key}))
  {}

  lemma FewerToVisit(keys: set<string>, key: string)
    requires key in keys
    ensures |keys - {key}| < |keys|
  {}

  predicate Nearer(pc: Pc, before: Pc) {
    Stage(pc) < Stage(before) || (Stage(pc) == Stage(before) && |ToVisit(pc)| < |ToVisit(before)|)
  }

  lemma NextStep(s: State) returns (e: Event, t: State)
    requires Invariant(s) && s.closer.Some? && !s.closer.value.pc.Saving?
    ensures !Outside(e) && t == Step(s, e) && Invariant(t) && t.closer.Some? && t.saved == s.saved
    ensures Nearer(t.closer.value.pc, s.closer.value.pc)
  {
    var pc := s.closer.value.pc;
    var key := "";
    if ToVisit(pc) != {} {
      key :| key in ToVisit(pc);
      FewerToVisit(ToVisit(pc), key);
    }
    e := Next(pc, key);
    NextAdvances(s, key);
    StepKeepsInvariant(s, e);
    t := Step(s, e);
  }

  lemma RunCons(s: State, e: Event, events: seq<Event>)
    ensures Run(s, [e] + events) == Run(Step(s, e), events)
  {
    assert ([e] + events)[1..] == events;
  }

  predicate AllOfCloser(events: seq<Event>) {
    forall e :: e in events ==> !Outside(e)
  }

  /** A closer can always go on: at any point of any run its own steps lead to the end of the close. */
  lemma {:induction false} CloseCompletes(s: State) returns (events: seq<Event>)
    requires Invariant(s) && s.closer.Some?
    ensures Run(s, events).closer.None? && Run(s, events).saved == s.saved + 1
    ensures AllOfCloser(events)
    decreases Stage(s.closer.value.pc), |ToVisit(s.closer.value.pc)|
  {
    if s.closer.value.pc.Saving? {
      events := [Save];
      RunCons(s, Save, []);
    } else {
      var e, t := NextStep(s);
      var rest := CloseCompletes(t);
      events := [e] + rest;
      RunCons(s, e, rest);
    }
  }

  /** Every interleaving of closers, observers and status changes. Once any close has completed, the id is
      out of the registry, the row is gone or disconnected, the session's connection and that of every
      observer present when the first effective close began are closed, and the closing frames were written
      once to the session and once to each such observer that had not left by itself; no observer ever got
      two. What happens afterwards leaves the recorded code and reason alone. */
  lemma CloseProtocol(s0: State, events: seq<Event>, later: seq<Event>)
    requires Initial(s0)
    ensures
      var s := Run(s0, events);
      && (forall k :: s.framed[k] <= 1)
      && s.mainFrames <= 1
      && (s.saved > 0 ==>
        && !s.registered && Settled(s.row) && s.handleClosed && s.mainFrames == 1
        && s.snapshot.Some? && s.snapshot.value <= s.closedObservers && Told(s, s.snapshot.value)
        && Successor(s.row, Run(s, later).row))
  {
    RunKeepsInvariant(s0, events);
    if Run(s0, events).saved > 0 {
      RecordedOnce(Run(s0, events), later);
    }
  }
}
