/** The web terminal's output path: one goroutine reads runes, another gathers them in a buffer and, on
    each tick, sends the buffer as a message to the browser, the recorder and the session's observers. */
module Terminal {
  import opened Wrappers
  import opened Text
  import opened Utf8

  // ---------- messages ----------

  datatype Message = Message(kind: int, content: string)

  const DATA := 2

  function ToString(m: Message): string {
    (if m.kind < 0 then "-" + Itoa(-m.kind) else Itoa(m.kind)) + m.content
  }

  /** Only the first byte is taken for the type. */
  function ParseMessage(value: string): Outcome<Message> {
    if value == "" then Ok(Message(0, ""))
    else
      match ParseNat(value[..1])
      case None => Err
      case Some(kind) => Ok(Message(kind, value[1..]))
  }

  /** A message survives the wire exactly when its type is a single digit. */
  lemma MessageRoundTrip(m: Message)
    ensures ParseMessage(ToString(m)) == Ok(m) <==> 0 <= m.kind <= 9
  {}

  // ---------- what comes out for what goes in ----------

  /** How runes are taken from the input and written to the buffer. The pipeline below works with any pair
      of such functions; the program's is UTF8. */
  datatype RuneFunctions = RuneFunctions(next: string -> (Rune, nat), emit: Rune -> string) {
    ghost predicate Advances() {
      forall s :: s != "" ==> 1 <= next(s).1 <= |s|
    }
  }

  type Codec = c: RuneFunctions | c.Advances() ghost witness RuneFunctions(s => (0, |s|), _ => "")

  function Next(s: string): (r: (Rune, nat))
    ensures s != "" ==> 1 <= r.1 <= |s|
  {
    if s == "" then (RUNE_ERROR, 0) else DecodeRune(s)
  }

  /** U+FFFD, read from a bad byte or genuinely sent, is shown as an at sign. */
  function Emit(r: Rune): string {
    if r == RUNE_ERROR then "@" else EncodeRune(r)
  }

  const UTF8: Codec := RuneFunctions(Next, Emit)

  function EmitAll(c: Codec, rs: seq<Rune>): string {
    if rs == [] then "" else EmitAll(c, rs[..|rs| - 1]) + c.emit(rs[|rs| - 1])
  }

  function DecodeAll(c: Codec, s: string): seq<Rune>
    decreases |s|
  {
    if s == "" then [] else [c.next(s).0] + DecodeAll(c, s[c.next(s).1..])
  }

  lemma {:induction false} EmitAppend(c: Codec, a: seq<Rune>, b: seq<Rune>)
    ensures EmitAll(c, a + b) == EmitAll(c, a) + EmitAll(c, b)
    decreases |b|
  {
    if b == [] {
      assert a + b == a;
    } else {
      var init := b[..|b| - 1];
      assert (a + b)[..|a + b| - 1] == a + init;
      EmitAppend(c, a, init);
    }
  }

  lemma EmitFirst(c: Codec, s: string)
    requires s != ""
    ensures EmitAll(c, DecodeAll(c, s)) == c.emit(c.next(s).0) + EmitAll(c, DecodeAll(c, s[c.next(s).1..]))
  {
    var r := c.next(s).0;
    EmitAppend(c, [r], DecodeAll(c, s[c.next(s).1..]));
    assert EmitAll(c, [r]) == c.emit(r) by {
      assert [r][..0] == [] && "" + c.emit(r) == c.emit(r);
    }
  }

  /** The terminal shows the bytes it was given exactly when they are well-formed and free of U+FFFD. */
  lemma {:induction false} EchoExactly(s: string)
    requires IsBytes(s)
    ensures EmitAll(UTF8, DecodeAll(UTF8, s)) == s <==> RUNE_ERROR !in DecodeAll(UTF8, s)
    decreases |s|
  {
    if s == "" {
    } else {
      var (r, n) := DecodeRune(s);
      EncodeDecode(s);
      EchoExactly(s[n..]);
      EmitFirst(UTF8, s);
      FirstPartDecides(s, n, Emit(r), EmitAll(UTF8, DecodeAll(UTF8, s[n..])));
    }
  }

  lemma FirstPartDecides(s: string, n: nat, head: string, tail: string)
    requires 1 <= n <= |s| && (head == s[..n] || (head != "" && head[0] != s[0]))
    ensures head + tail == s <==> head == s[..n] && tail == s[n..]
  {}

  // ---------- the pipeline ----------

  /** What one observer has been sent since it joined, and whether every write to it succeeded. */
  datatype Feed = Feed(joined: nat, lossless: bool, frames: seq<string>)

  datatype State = State(
    unread: string, reading: bool, inFlight: Option<Rune>, writing: bool, buf: string,
    frames: seq<string>, recording: bool, taped: bool, tape: seq<string>, observers: map<string, Feed>,
    read: seq<Rune>)

  /** One turn of one goroutine, or something that happens beside them. A tick says whether the browser
      took the message, whether the recorder did, and which observers did not. */
  datatype Event =
    | ReaderTurn(cancelled: bool)
    | ReceiveRune
    | Tick(sent: bool, recorded: bool, lost: set<string>)
    | WriterCancelled
    | Join(id: string)
    | Leave(id: string)
    | SessionClosed

  function Frame(chunk: string): string {
    ToString(Message(DATA, chunk))
  }

  function Broadcast(observers: map<string, Feed>, chunk: string, lost: set<string>): map<string, Feed> {
    map id | id in observers ::
      var f := observers[id];
      if id in lost then f.(lossless := false) else f.(frames := f.frames + [Frame(chunk)])
  }

  function ReaderStep(c: Codec, s: State, cancelled: bool): State {
    if !s.reading || s.inFlight.Some? then s
    else if cancelled || s.unread == "" then s.(reading := false)
    else
      var (r, n) := c.next(s.unread);
      s.(unread := s.unread[n..], inFlight := Some(r), read := s.read + [r])
  }

  function ReceiveStep(c: Codec, s: State): State {
    if !s.writing || s.inFlight.None? then s
    else s.(inFlight := None, buf := s.buf + c.emit(s.inFlight.value))
  }

  function TickStep(s: State, sent: bool, recorded: bool, lost: set<string>): State {
    if !s.writing || s.buf == "" then s
    else if !sent then s.(writing := false)
    else
      s.(frames := s.frames + [Frame(s.buf)],
         tape := if s.recording && recorded then s.tape + [s.buf] else s.tape,
         taped := s.taped && recorded,
         observers := Broadcast(s.observers, s.buf, lost),
         buf := "")
  }

  function Step(c: Codec, s: State, e: Event): State {
    match e
    case ReaderTurn(cancelled) => ReaderStep(c, s, cancelled)
    case ReceiveRune => ReceiveStep(c, s)
    case Tick(sent, recorded, lost) => TickStep(s, sent, recorded, lost)
    case WriterCancelled => s.(writing := false)
    case Join(id) =>
      if id in s.observers then s else s.(observers := s.observers[id := Feed(|s.frames|, true, [])])
    case Leave(id) => s.(observers := s.observers - {id})
    case SessionClosed => s.(observers := map[])
  }

  function Start(input: string, recording: bool): State {
    State(input, true, None, true, "", [], recording, true, [], map[], [])
  }

  function Run(c: Codec, s: State, events: seq<Event>): State
    decreases |events|
  {
    if events == [] then s else Run(c, Step(c, s, events[0]), events[1..])
  }

  class TermHandler {
    var unread: string
    var reading: bool
    var inFlight: Option<Rune>
    var writing: bool
    var buf: string
    var frames: seq<string>
    const recording: bool
    var taped: bool
    var tape: seq<string>
    var observers: map<string, Feed>
    ghost var read: seq<Rune>

    constructor (input: string, recording: bool)
      ensures View() == Start(input, recording)
    {
      unread, reading, inFlight, writing, buf, frames := input, true, None, true, "", [];
      this.recording, taped, tape, observers, read := recording, true, [], map[], [];
    }

    ghost function View(): State
      reads this
    {
      State(unread, reading, inFlight, writing, buf, frames, recording, taped, tape, observers, read)
    }

    /** One turn of the reading loop; with a rune waiting to be taken the goroutine is blocked. */
    method ReadFormTunnel(cancelled: bool)
      modifies this
      ensures View() == ReaderStep(UTF8, old(View()), cancelled)
    {
      if !reading || inFlight.Some? {
        return;
      }
      if cancelled || unread == "" {
        reading := false;
        return;
      }
      var (r, n) := DecodeRune(unread);
      unread := unread[n..];
      inFlight := Some(r);
      read := read + [r];
    }

    /** The writing loop's turn when a rune is taken from the channel. */
    method WriteRune()
      modifies this
      ensures View() == ReceiveStep(UTF8, old(View()))
    {
      if !writing || inFlight.None? {
        return;
      }
      if inFlight.value != RUNE_ERROR {
        buf := buf + EncodeRune(inFlight.value);
      } else {
        buf := buf + "@";
      }
      inFlight := None;
    }

    /** The writing loop's turn when the ticker fires. */
    method WriteTick(sent: bool, recorded: bool, lost: set<string>)
      modifies this
      ensures View() == TickStep(old(View()), sent, recorded, lost)
    {
      if !writing || buf == "" {
        return;
      }
      if !sent {
        writing := false;
        return;
      }
      frames := frames + [Frame(buf)];
      if recording && recorded {
        tape := tape + [buf];
      }
      taped := taped && recorded;
      SendObData(buf, lost);
      buf := "";
    }

    method SendObData(s: string, lost: set<string>)
      modifies this`observers
      ensures observers == Broadcast(old(observers), s, lost)
    {
      var todo := observers.Keys;
      while todo != {}
        invariant todo <= observers.Keys == old(observers).Keys
        invariant forall id :: id in todo ==> observers[id] == old(observers)[id]
        invariant forall id :: id in observers && id !in todo ==>
            observers[id] == Broadcast(old(observers), s, lost)[id]
        decreases |todo|
      {
        var id :| id in todo;
        var f := observers[id];
        var f' := if id in lost then f.(lossless := false) else f.(frames := f.frames + [Frame(s)]);
        observers := observers[id := f'];
        todo := todo - {id};
      }
    }
  }

  // ---------- what every interleaving keeps ----------

  function Content(frame: string): string {
    match ParseMessage(frame)
    case Ok(m) => m.content
    case _ => ""
  }

  function Contents(frames: seq<string>): string {
    if frames == [] then "" else Contents(frames[..|frames| - 1]) + Content(frames[|frames| - 1])
  }

  function Chunks(frames: seq<string>): seq<string> {
    seq(|frames|, i requires 0 <= i < |frames| => Content(frames[i]))
  }

  function InFlight(c: Codec, s: State): string {
    if s.inFlight.Some? then c.emit(s.inFlight.value) else ""
  }

  function Written(s: State): string {
    Contents(s.frames) + s.buf
  }

  /** Nothing is lost, repeated or reordered between the reader and the browser ... */
  ghost predicate Delivers(c: Codec, input: string, s: State) {
    && DecodeAll(c, input) == s.read + DecodeAll(c, s.unread)
    && Written(s) + InFlight(c, s) == EmitAll(c, s.read)
  }

  /** ... and the recorder and the observers see the browser's chunks unless a write to them failed. */
  ghost predicate Mirrors(s: State) {
    && (s.recording && s.taped ==> s.tape == Chunks(s.frames))
    && FeedsMirror(s.frames, s.observers)
  }

  ghost predicate FeedsMirror(frames: seq<string>, observers: map<string, Feed>) {
    forall id :: id in observers ==>
      && observers[id].joined <= |frames|
      && (observers[id].lossless ==> observers[id].frames == frames[observers[id].joined..])
  }

  lemma ReaderTurnReads(c: Codec, s: State)
    requires s.reading && s.inFlight.None? && s.unread != ""
    ensures s.read + DecodeAll(c, s.unread)
         == ReaderStep(c, s, false).read + DecodeAll(c, ReaderStep(c, s, false).unread)
  {
    var (r, n) := c.next(s.unread);
    var rest := DecodeAll(c, s.unread[n..]);
    assert DecodeAll(c, s.unread) == [r] + rest;
    assert s.read + ([r] + rest) == s.read + [r] + rest;
  }

  lemma ReaderTurnDelivers(c: Codec, input: string, s: State)
    requires Delivers(c, input, s) && s.reading && s.inFlight.None? && s.unread != ""
    ensures Delivers(c, input, ReaderStep(c, s, false))
  {
    ReaderTurnReads(c, s);
    var s' := ReaderStep(c, s, false);
    var r := c.next(s.unread).0;
    EmitSnoc(c, s.read, r);
    assert Written(s') == Written(s) && InFlight(c, s') == c.emit(r) && Written(s) + "" == Written(s);
  }

  lemma EmitSnoc(c: Codec, rs: seq<Rune>, r: Rune)
    ensures EmitAll(c, rs + [r]) == EmitAll(c, rs) + c.emit(r)
  {}

  lemma Emptied(sent: string, buf: string, out: string)
    ensures sent + (buf + out) + "" == sent + buf + out
  {}

  lemma ReceiveDelivers(c: Codec, input: string, s: State)
    requires Delivers(c, input, s) && s.writing && s.inFlight.Some?
    ensures Delivers(c, input, ReceiveStep(c, s))
  {
    var out, sent := c.emit(s.inFlight.value), Contents(s.frames);
    Emptied(sent, s.buf, out);
    assert ReceiveStep(c, s).frames == s.frames;
  }

  lemma ContentsSnoc(frames: seq<string>, chunk: string)
    ensures Contents(frames + [Frame(chunk)]) == Contents(frames) + chunk
  {}

  lemma TickDelivers(c: Codec, input: string, s: State, recorded: bool, lost: set<string>)
    requires Delivers(c, input, s) && s.writing && s.buf != ""
    ensures Delivers(c, input, TickStep(s, true, recorded, lost))
  {
    ContentsSnoc(s.frames, s.buf);
    var frames' := s.frames + [Frame(s.buf)];
    assert Contents(frames') + "" == Contents(frames');
  }

  lemma StepDelivers(c: Codec, input: string, s: State, e: Event)
    requires Delivers(c, input, s)
    ensures Delivers(c, input, Step(c, s, e))
  {
    match e
    case ReaderTurn(cancelled) =>
      if s.reading && s.inFlight.None? && s.unread != "" && !cancelled {
        ReaderTurnDelivers(c, input, s);
      }
    case ReceiveRune =>
      if s.writing && s.inFlight.Some? {
        ReceiveDelivers(c, input, s);
      }
    case Tick(sent, recorded, lost) =>
      if s.writing && s.buf != "" && sent {
        TickDelivers(c, input, s, recorded, lost);
      }
    case _ =>
  }

  lemma TickMirrors(s: State, sent: bool, recorded: bool, lost: set<string>)
    requires Mirrors(s)
    ensures Mirrors(TickStep(s, sent, recorded, lost))
  {}

  lemma StepMirrors(c: Codec, s: State, e: Event)
    requires Mirrors(s)
    ensures Mirrors(Step(c, s, e))
  {
    if e.Tick? {
      TickMirrors(s, e.sent, e.recorded, e.lost);
    }
  }

  ghost predicate Conserves(c: Codec, input: string, s: State) {
    Delivers(c, input, s) && Mirrors(s)
  }

  lemma {:induction false} RunConserves(c: Codec, input: string, s: State, events: seq<Event>)
    requires Conserves(c, input, s)
    ensures Conserves(c, input, Run(c, s, events))
    decreases |events|
  {
    if events == [] {
    } else {
      StepDelivers(c, input, s, events[0]);
      StepMirrors(c, s, events[0]);
      RunConserves(c, input, Step(c, s, events[0]), events[1..]);
    }
  }

  /** Every interleaving, from the start: what the browser has been sent is a prefix of the emitted input,
      hence of the input itself when that is well-formed and free of U+FFFD, and all of it once the reader
      has met the end and the last tick has gone through. */
  lemma SentIsPrefix(input: string, recording: bool, events: seq<Event>)
    requires IsBytes(input)
    ensures
      var s := Run(UTF8, Start(input, recording), events);
      && Conserves(UTF8, input, s)
      && Contents(s.frames) <= EmitAll(UTF8, DecodeAll(UTF8, input))
      && (RUNE_ERROR !in DecodeAll(UTF8, input) ==> Contents(s.frames) <= input)
      && (s.unread == "" && s.inFlight.None? && s.buf == "" ==>
            Contents(s.frames) == EmitAll(UTF8, DecodeAll(UTF8, input)))
  {
    RunConserves(UTF8, input, Start(input, recording), events);
    EchoExactly(input);
    DeliveredPrefix(UTF8, input, Run(UTF8, Start(input, recording), events));
  }

  lemma DeliveredPrefix(c: Codec, input: string, s: State)
    requires Delivers(c, input, s)
    ensures Contents(s.frames) <= EmitAll(c, DecodeAll(c, input))
    ensures s.unread == "" && s.inFlight.None? && s.buf == "" ==> Contents(s.frames) == EmitAll(c, DecodeAll(c, input))
  {
    EmitAppend(c, s.read, DecodeAll(c, s.unread));
    FirstOfFour(EmitAll(c, DecodeAll(c, input)), Contents(s.frames), s.buf, InFlight(c, s),
                EmitAll(c, DecodeAll(c, s.unread)));
  }

  lemma FirstOfFour(whole: string, a: string, b: string, c: string, d: string)
    requires whole == a + b + c + d
    ensures a <= whole
    ensures b == c == d == "" ==> a == whole
  {}

  /** What is shown, rune by rune: its own bytes, or an at sign for U+FFFD. */
  function Shown(rs: seq<Rune>): string {
    if rs == [] then "" else (if rs[0] == 0xFFFD then "@" else EncodeRune(rs[0])) + Shown(rs[1..])
  }

  lemma {:induction false} ShownExactly(rs: seq<Rune>)
    ensures EmitAll(UTF8, rs) == Shown(rs)
  {
    if rs == [] {
    } else {
      ShownExactly(rs[1..]);
      EmitAppend(UTF8, [rs[0]], rs[1..]);
      assert rs == [rs[0]] + rs[1..];
      assert [rs[0]][..0] == [] && "" + Emit(rs[0]) == Emit(rs[0]);
    }
  }

  // ---------- everything does go through ----------

  /** A turn that is neither cancelled nor fails. */
  predicate Smooth(e: Event) {
    e == ReaderTurn(false) || e == ReceiveRune || e == Tick(true, true, {})
  }

  predicate Drained(s: State) {
    s.unread == "" && s.inFlight.None? && s.buf == ""
  }

  lemma RunCons(c: Codec, s: State, e: Event, events: seq<Event>)
    ensures Run(c, s, [e] + events) == Run(c, Step(c, s, e), events)
  {
    assert ([e] + events)[1..] == events;
  }

  /** From any point at which both goroutines run there are turns after which nothing is left to send. */
  lemma {:induction false} Drain(c: Codec, s: State) returns (events: seq<Event>)
    requires s.reading && s.writing
    ensures Drained(Run(c, s, events)) && forall e :: e in events ==> Smooth(e)
    decreases |s.unread|, s.inFlight.Some?, |s.buf|
  {
    if Drained(s) {
      events := [];
    } else {
      var e := if s.inFlight.Some? then ReceiveRune else if s.unread != "" then ReaderTurn(false)
               else Tick(true, true, {});
      var rest := Drain(c, Step(c, s, e));
      RunCons(c, s, e, rest);
      events := [e] + rest;
    }
  }

  /** So every input can be shown to its end, and then has been. */
  lemma AllIsShown(input: string, recording: bool) returns (events: seq<Event>)
    requires IsBytes(input)
    ensures var s := Run(UTF8, Start(input, recording), events);
            Drained(s) && Contents(s.frames) == Shown(DecodeAll(UTF8, input))
  {
    events := Drain(UTF8, Start(input, recording));
    SentIsPrefix(input, recording, events);
    ShownExactly(DecodeAll(UTF8, input));
  }

  /** The event fails no write to this observer and does not take it away. */
  predicate Spares(e: Event, id: string) {
    (e.Tick? ==> id !in e.lost) && e != Leave(id) && !e.SessionClosed?
  }

  predicate Watches(s: State, id: string, joined: nat) {
    id in s.observers && s.observers[id].lossless && s.observers[id].joined == joined
  }

  /** Whoever joins watches from the next frame on, and is gone after leaving. */
  lemma JoinWatches(c: Codec, s: State, id: string)
    ensures id !in s.observers ==> Watches(Step(c, s, Join(id)), id, |s.frames|)
    ensures Step(c, s, Join(id)).observers - {id} == s.observers - {id}
    ensures Step(c, s, Leave(id)).observers == s.observers - {id}
  {}

  lemma StepSpares(c: Codec, s: State, e: Event, id: string, joined: nat)
    requires Watches(s, id, joined) && Spares(e, id)
    ensures Watches(Step(c, s, e), id, joined)
  {}

  lemma {:induction false} RunSpares(c: Codec, s: State, events: seq<Event>, id: string, joined: nat)
    requires Watches(s, id, joined) && forall e :: e in events ==> Spares(e, id)
    ensures Watches(Run(c, s, events), id, joined)
    decreases |events|
  {
    if events == [] {
    } else {
      StepSpares(c, s, events[0], id, joined);
      RunSpares(c, Step(c, s, events[0]), events[1..], id, joined);
    }
  }

  lemma {:induction false} RunMirrors(c: Codec, s: State, events: seq<Event>)
    requires Mirrors(s)
    ensures Mirrors(Run(c, s, events))
    decreases |events|
  {
    if events == [] {
    } else {
      StepMirrors(c, s, events[0]);
      RunMirrors(c, Step(c, s, events[0]), events[1..]);
    }
  }

  /** An observer no write to whom fails is sent every frame from the moment it joined. */
  lemma ObserverSeesAll(c: Codec, s: State, events: seq<Event>, id: string)
    requires Mirrors(s) && id in s.observers && s.observers[id].lossless
    requires forall e :: e in events ==> Spares(e, id)
    ensures var t, joined := Run(c, s, events), s.observers[id].joined;
            id in t.observers && joined <= |t.frames| && t.observers[id].frames == t.frames[joined..]
  {
    RunSpares(c, s, events, id, s.observers[id].joined);
    RunMirrors(c, s, events);
  }

  lemma {:induction false} RunTaped(c: Codec, s: State, events: seq<Event>)
    requires s.recording && s.taped && forall e :: e in events && e.Tick? ==> e.recorded
    ensures Run(c, s, events).recording && Run(c, s, events).taped
    decreases |events|
  {
    if events == [] {
    } else {
      RunTaped(c, Step(c, s, events[0]), events[1..]);
    }
  }

  /** A recording no write to which fails holds every message. */
  lemma RecordingHoldsAll(c: Codec, s: State, events: seq<Event>)
    requires Mirrors(s) && s.recording && s.taped
    requires forall e :: e in events && e.Tick? ==> e.recorded
    ensures Run(c, s, events).tape == Chunks(Run(c, s, events).frames)
  {
    RunTaped(c, s, events);
    RunMirrors(c, s, events);
  }
}
