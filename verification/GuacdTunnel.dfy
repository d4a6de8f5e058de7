/** Reading from guacd and forwarding to the browser. The reader cuts the stream at semicolons; one audio
    mimetype holds a semicolon, and the code glues that instruction together again. */
module GuacdTunnel {
  import opened Wrappers
  import opened Text
  import opened Guacamole

  // ---------- cutting and gluing ----------

  function SemicolonAt(s: string): (i: nat)
    ensures i <= |s| && ';' !in s[..i] && (i < |s| ==> s[i] == ';')
  {
    if s == "" || s[0] == ';' then 0
    else
      var i := 1 + SemicolonAt(s[1..]);
      assert s[..i] == [s[0]] + s[1..][..i - 1];
      i
  }

  predicate IsChunk(c: string) {
    c != "" && c[|c| - 1] == ';' && ';' !in c[..|c| - 1]
  }

  /** The complete chunks of a stream. */
  function Chunks(s: string): (cs: seq<string>)
    ensures forall k :: 0 <= k < |cs| ==> IsChunk(cs[k])
    decreases |s|
  {
    var i := SemicolonAt(s);
    if i == |s| then []
    else
      assert s[..i + 1][..i] == s[..i];
      [s[..i + 1]] + Chunks(s[i + 1..])
  }

  function Flatten(cs: seq<string>): string {
    if cs == [] then "" else cs[0] + Flatten(cs[1..])
  }

  /** The three chunks the reader knows: an instruction's head, its tail, and a tail it drops. */
  datatype Pieces = Pieces(head: string, tail: string, dropped: string)

  type Marks = m: Pieces |
    IsChunk(m.head) && IsChunk(m.tail) && IsChunk(m.dropped) && m.head != m.tail && m.head != m.dropped
    witness Pieces("a;", "b;", "c;")

  const MIME := "audio/L16"
  const RATE44 := "rate=44100,channels=2"
  const RATE22 := "rate=22050,channels=2"

  const HEAD := "5.audio" + "," + "1.1" + "," + "31" + "." + MIME

  lemma BeforeSemicolon(s: string)
    requires ';' !in s
    ensures IsChunk(s + ";")
  {
    assert (s + ";")[..|s|] == s;
  }

  lemma HeadIsChunk()
    ensures IsChunk(HEAD + ";") && HEAD[0] == '5'
  {
    BeforeSemicolon(HEAD);
  }

  lemma TailsAreChunks()
    ensures IsChunk(RATE44 + ";") && IsChunk(RATE22 + ";") && RATE44[0] == RATE22[0] == 'r'
  {
    BeforeSemicolon(RATE44);
    BeforeSemicolon(RATE22);
  }

  lemma DifferentStart(a: string, b: string)
    requires a != "" && b != "" && a[0] != b[0]
    ensures a + ";" != b + ";"
  {
    assert (a + ";")[0] == a[0] && (b + ";")[0] == b[0];
  }

  const AUDIO: Marks :=
    (HeadIsChunk();
     TailsAreChunks();
     DifferentStart(HEAD, RATE44);
     DifferentStart(HEAD, RATE22);
     Pieces(HEAD + ";", RATE44 + ";", RATE22 + ";"))

  /** What Read makes of one chunk. */
  function ReadResult(m: Marks, chunk: string): string {
    if chunk == m.tail || chunk == m.dropped then ""
    else if chunk == m.head then chunk + m.tail
    else chunk
  }

  /** The messages forwarded for a list of chunks. */
  function Messages(m: Marks, cs: seq<string>): seq<string> {
    if cs == [] then []
    else After([], ReadResult(m, cs[0])) + Messages(m, cs[1..])
  }

  /** Empty messages are skipped. */
  function After(sent: seq<string>, message: string): seq<string> {
    if message == "" then sent else sent + [message]
  }

  class Tunnel {
    var unread: string

    constructor (stream: string)
      ensures unread == stream
    {
      unread := stream;
    }

    /** Without a further semicolon the read ends in an error and what was left is gone. */
    method Read() returns (r: Outcome<string>)
      modifies this
      ensures Chunks(old(unread)) == [] ==> r == Err && unread == ""
      ensures Chunks(old(unread)) != [] ==>
        r == Ok(ReadResult(AUDIO, Chunks(old(unread))[0])) && Chunks(unread) == Chunks(old(unread))[1..]
      ensures Chunks(old(unread)) != [] ==> old(unread) == Chunks(old(unread))[0] + unread
    {
      var i := SemicolonAt(unread);
      if i == |unread| {
        unread := "";
        return Err;
      }
      var data := unread[..i + 1];
      assert unread == data + unread[i + 1..];
      unread := unread[i + 1..];
      if data == AUDIO.tail {
        return Ok("");
      }
      if data == AUDIO.dropped {
        return Ok("");
      }
      if data == AUDIO.head {
        data := data + AUDIO.tail;
      }
      return Ok(data);
    }
  }

  datatype Ending = Cancelled | Disconnected | WriteFailed

  lemma AfterConcat(a: seq<string>, b: seq<string>, message: string)
    ensures After(a + b, message) == a + After(b, message)
  {}

  lemma {:induction false} MessagesSnoc(m: Marks, cs: seq<string>, c: string)
    ensures Messages(m, cs + [c]) == After(Messages(m, cs), ReadResult(m, c))
  {
    if cs == [] {
      assert cs + [c] == [c] && [c][1..] == [];
    } else {
      assert (cs + [c])[1..] == cs[1..] + [c];
      MessagesSnoc(m, cs[1..], c);
      AfterConcat(After([], ReadResult(m, cs[0])), Messages(m, cs[1..]), ReadResult(m, c));
    }
  }

  lemma NextMessage(m: Marks, cs: seq<string>, k: nat)
    requires k < |cs|
    ensures Messages(m, cs[..k + 1]) == After(Messages(m, cs[..k]), ReadResult(m, cs[k]))
  {
    assert cs[..k + 1] == cs[..k] + [cs[k]];
    MessagesSnoc(m, cs[..k], cs[k]);
  }

  /** What a browser is told when the connection to guacd ends: the reason in base64 and a code, then the end. */
  function Farewell(reason: string, code: string): seq<seq<string>> {
    [["error", reason, code], ["disconnect"]]
  }

  /** The forwarding loop: it runs until it is cancelled, a write fails or the stream ends. The browser has been sent
      the messages of all chunks read, but for the one whose write failed; when the stream has ended these are all its
      messages, and the farewell follows. */
  method Forward(tunnel: Tunnel, turns: nat, writeOk: nat -> bool, reason: string, code: string)
    returns (sent: seq<string>, ending: Ending)
    modifies tunnel
    ensures var cs, left := Chunks(old(tunnel.unread)), Chunks(tunnel.unread);
            && (ending == Cancelled ==>
                  turns <= |cs| && left == cs[turns..] && sent == Messages(AUDIO, cs[..turns]))
            && (ending == WriteFailed ==>
                  exists k :: 0 <= k < turns && k < |cs| && !writeOk(k)
                    && left == cs[k + 1..] && sent == Messages(AUDIO, cs[..k]))
            && (ending == Disconnected ==>
                  && turns > |cs| && tunnel.unread == ""
                  && sent == Messages(AUDIO, cs) + [Form(["error", reason, code]), Form(["disconnect"])])
  {
    sent := [];
    ghost var cs := Chunks(tunnel.unread);
    for turn := 0 to turns
      invariant turn <= |cs| && Chunks(tunnel.unread) == cs[turn..]
      invariant sent == Messages(AUDIO, cs[..turn])
    {
      var instruction := tunnel.Read();
      if !instruction.Ok? {
        assert cs[..turn] == cs;
        sent := sent + Forms(Farewell(reason, code));
        FarewellForms(reason, code);
        return sent, Disconnected;
      }
      assert cs[turn..][0] == cs[turn] && cs[turn..][1..] == cs[turn + 1..];
      NextMessage(AUDIO, cs, turn);
      if |instruction.value| == 0 {
        continue;
      }
      if !writeOk(turn) {
        return sent, WriteFailed;
      }
      sent := sent + [instruction.value];
    }
    return sent, Cancelled;
  }

  lemma FarewellForms(reason: string, code: string)
    ensures Forms(Farewell(reason, code)) == [Form(["error", reason, code]), Form(["disconnect"])]
  {
    var end := Farewell(reason, code);
    assert end[1..] == [["disconnect"]] && [["disconnect"]][1..] == [];
  }

  predicate Decodable(list: seq<seq<string>>) {
    forall k :: 0 <= k < |list| ==> list[k] != [] && AllAscii(list[k])
  }

  lemma DecodesTogether(list: seq<seq<string>>, end: seq<seq<string>>)
    requires Decodable(list) && Decodable(end)
    ensures DecodeStream(Stream(list + end)) == Some(list + end)
  {
    assert Decodable(list + end);
    DecodeStreamOf(list + end);
  }

  /** A decoder that goes by the lengths understands the farewell after any ASCII instructions, whatever delimiters
      they hold. */
  lemma FarewellUnderstood(list: seq<seq<string>>, reason: string, code: string)
    requires Decodable(list) && Ascii(reason) && Ascii(code)
    ensures DecodeStream(Stream(list + Farewell(reason, code)))
         == Some(list + [["error", reason, code], ["disconnect"]])
  {
    FarewellAscii(reason, code);
    DecodesTogether(list, Farewell(reason, code));
  }

  lemma FarewellAscii(reason: string, code: string)
    requires Ascii(reason) && Ascii(code)
    ensures Decodable(Farewell(reason, code))
  {
    assert Ascii("error") && Ascii("disconnect");
    var end := Farewell(reason, code);
    assert end[0] == ["error", reason, code] && end[1] == ["disconnect"];
  }

  // ---------- when the bytes are conserved ----------

  /** The cuts that belong together stand together: each audio head is followed by its 44100 Hz tail, which
      stands nowhere else, and no 22050 Hz tail occurs. */
  predicate Balanced(m: Marks, cs: seq<string>) {
    if cs == [] then true
    else if cs[0] == m.head then |cs| > 1 && cs[1] == m.tail && Balanced(m, cs[2..])
    else cs[0] != m.tail && cs[0] != m.dropped && Balanced(m, cs[1..])
  }

  /** The forwarded bytes, cut into chunks again. */
  function OutChunks(m: Marks, cs: seq<string>): seq<string> {
    if cs == [] then []
    else if cs[0] == m.tail || cs[0] == m.dropped then OutChunks(m, cs[1..])
    else if cs[0] == m.head then [m.head, m.tail] + OutChunks(m, cs[1..])
    else [cs[0]] + OutChunks(m, cs[1..])
  }

  lemma FlattenCons(c: string, cs: seq<string>)
    ensures Flatten([c] + cs) == c + Flatten(cs)
  {}

  lemma SendPair(head: string, tail: string, out: seq<string>, sent: seq<string>)
    requires Flatten(out) == Flatten(sent)
    ensures Flatten([head, tail] + out) == Flatten([head + tail] + sent)
  {
    assert [head, tail] + out == [head] + ([tail] + out);
    FlattenCons(head, [tail] + out);
    FlattenCons(tail, out);
    FlattenCons(head + tail, sent);
    assert head + (tail + Flatten(out)) == (head + tail) + Flatten(out);
  }

  lemma SendOne(c: string, out: seq<string>, sent: seq<string>)
    requires Flatten(out) == Flatten(sent)
    ensures Flatten([c] + out) == Flatten([c] + sent)
  {
    FlattenCons(c, out);
    FlattenCons(c, sent);
  }

  ghost predicate AllChunks(cs: seq<string>) {
    forall c :: c in cs ==> IsChunk(c)
  }

  lemma {:induction false} OutChunksAreSent(m: Marks, cs: seq<string>)
    requires AllChunks(cs)
    ensures Flatten(OutChunks(m, cs)) == Flatten(Messages(m, cs))
  {
    if cs == [] {
    } else {
      var out, sent := OutChunks(m, cs[1..]), Messages(m, cs[1..]);
      OutChunksAreSent(m, cs[1..]);
      assert IsChunk(cs[0]);
      if cs[0] == m.tail || cs[0] == m.dropped {
        assert OutChunks(m, cs) == out;
        assert Messages(m, cs) == sent;
      } else if cs[0] == m.head {
        SendPair(m.head, m.tail, out, sent);
        assert m.head + m.tail != "";
        assert Messages(m, cs) == [m.head + m.tail] + sent;
      } else {
        SendOne(cs[0], out, sent);
        assert Messages(m, cs) == [cs[0]] + sent;
      }
    }
  }

  lemma {:induction false} OutChunksAreChunks(m: Marks, cs: seq<string>)
    requires AllChunks(cs)
    ensures AllChunks(OutChunks(m, cs))
    ensures OutChunks(m, cs) != [] ==> OutChunks(m, cs)[0] != m.tail && OutChunks(m, cs)[0] != m.dropped
  {
    if cs == [] {
    } else {
      OutChunksAreChunks(m, cs[1..]);
    }
  }

  lemma {:induction false} FlattenInjective(a: seq<string>, b: seq<string>)
    requires AllChunks(a) && AllChunks(b) && Flatten(a) == Flatten(b)
    ensures a == b
  {
    assert a != [] ==> IsChunk(a[0]);
    assert b != [] ==> IsChunk(b[0]);
    if a != [] && b != [] {
      SameFirstChunk(a[0], Flatten(a[1..]), b[0], Flatten(b[1..]));
      FlattenInjective(a[1..], b[1..]);
      assert a == [a[0]] + a[1..] && b == [b[0]] + b[1..];
    }
  }

  lemma SameFirstChunk(c: string, s: string, d: string, t: string)
    requires IsChunk(c) && IsChunk(d) && c + s == d + t
    ensures c == d && s == t
  {
    var whole := c + s;
    assert whole[|c| - 1] == ';' && whole[|d| - 1] == ';';
    assert forall k :: 0 <= k < |c| - 1 ==> whole[k] == c[..|c| - 1][k];
    assert forall k :: 0 <= k < |d| - 1 ==> whole[k] == d[..|d| - 1][k];
    assert |c| == |d|;
    assert c == whole[..|c|] && s == whole[|c|..] && t == whole[|d|..];
  }

  lemma {:induction false} OutChunksFixed(m: Marks, cs: seq<string>)
    requires AllChunks(cs)
    ensures OutChunks(m, cs) == cs <==> Balanced(m, cs)
    decreases |cs|
  {
    if cs == [] {
    } else {
      var rest := cs[1..];
      OutChunksAreChunks(m, cs);
      assert cs == [cs[0]] + rest;
      if cs[0] == m.head {
        assert [m.head, m.tail] + OutChunks(m, rest) == [m.head] + ([m.tail] + OutChunks(m, rest));
        SameAfter([m.head], [m.tail] + OutChunks(m, rest), rest);
        if rest != [] && rest[0] == m.tail {
          var others := rest[1..];
          assert cs[2..] == others && rest == [m.tail] + others;
          OutChunksFixed(m, others);
          SameAfter([m.tail], OutChunks(m, others), others);
        }
      } else if cs[0] != m.tail && cs[0] != m.dropped {
        OutChunksFixed(m, rest);
        SameAfter([cs[0]], OutChunks(m, rest), rest);
      }
    }
  }

  /** Every guacd stream: the forwarded bytes are the bytes read, up to the last semicolon, exactly when
      the audio tails are balanced. */
  lemma ReframingConservesExactly(m: Marks, s: string)
    ensures Flatten(Messages(m, Chunks(s))) == Flatten(Chunks(s)) <==> Balanced(m, Chunks(s))
  {
    var cs := Chunks(s);
    OutChunksAreSent(m, cs);
    OutChunksAreChunks(m, cs);
    OutChunksFixed(m, cs);
    if Flatten(OutChunks(m, cs)) == Flatten(cs) {
      FlattenInjective(OutChunks(m, cs), cs);
    }
  }

  lemma {:induction false} ChunksCover(s: string)
    ensures Flatten(Chunks(s)) <= s && ';' !in s[|Flatten(Chunks(s))|..]
    decreases |s|
  {
    var i := SemicolonAt(s);
    if i < |s| {
      ChunksCover(s[i + 1..]);
      assert s == s[..i + 1] + s[i + 1..];
      assert Chunks(s)[1..] == Chunks(s[i + 1..]);
    } else {
      assert s[..i] == s;
    }
  }

  // ---------- streams of instructions ----------

  const AUDIO_L16: seq<string> := ["audio", "1", MIME + ";" + RATE44]

  /** An instruction guacd may send: no semicolon in it, or the one mimetype the code knows. */
  predicate Expected(parts: seq<string>) {
    parts != [] && (parts == AUDIO_L16 || forall k :: 0 <= k < |parts| ==> ';' !in parts[k])
  }

  lemma {:induction false} JoinHolds(parts: seq<string>, c: char)
    ensures c in Join(parts, ",") ==> c == ',' || exists k :: 0 <= k < |parts| && c in parts[k]
    ensures forall k :: 0 <= k < |parts| && c in parts[k] ==> c in Join(parts, ",")
  {
    if |parts| <= 1 {
    } else {
      JoinHolds(parts[1..], c);
      assert parts == [parts[0]] + parts[1..];
    }
  }

  lemma FormIsChunk(parts: seq<string>)
    requires parts != [] && forall k :: 0 <= k < |parts| ==> ';' !in parts[k]
    ensures IsChunk(Form(parts))
  {
    JoinHolds(Elements(parts), ';');
    assert Form(parts)[..|Form(parts)| - 1] == Join(Elements(parts), ",");
  }

  lemma JoinThree(x: string, y: string, z: string)
    ensures Join([x, y, z], ",") == x + "," + (y + "," + z)
  {
    assert [x, y, z][1..] == [y, z] && [y, z][1..] == [z];
    assert Join([y, z], ",") == y + "," + z;
  }

  lemma ElementAscii(v: string, length: string)
    requires Ascii(v) && length == Itoa(|v|)
    ensures Element(v) == length + "." + v
  {
    ByteLenAscii(v);
  }

  lemma FormOfThree(a: string, b: string, c: string)
    ensures Form([a, b, c]) == Element(a) + "," + (Element(b) + "," + Element(c)) + ";"
  {
    assert Elements([a, b, c]) == [Element(a), Element(b), Element(c)];
    JoinThree(Element(a), Element(b), Element(c));
  }

  lemma Regroup(p: string, q: string, h: string, c: string, d: string, x: string, e: string, y: string)
    ensures p + c + (q + c + (h + d + (x + e + y))) + e == (p + c + q + c + h + d + x + e) + (y + e)
  {}

  /** The length of the mimetype as guacd sends it. */
  lemma ThirtyOne()
    ensures |MIME + ";" + RATE44| == 31 && Itoa(31) == "31"
  {
    assert Itoa(31) == Itoa(3) + "1";
  }

  lemma AudioPrefixes()
    ensures "5" + "." + "audio" == "5.audio" && "1" + "." + "1" == "1.1"
  {}

  lemma FormOfAudio()
    ensures Form(AUDIO_L16) == AUDIO.head + AUDIO.tail
  {
    var v := MIME + ";" + RATE44;
    ThirtyOne();
    ElementAscii("audio", "5");
    ElementAscii("1", "1");
    ElementAscii(v, "31");
    FormOfThree("audio", "1", v);
    AudioPrefixes();
    Regroup("5.audio", "1.1", "31", ",", ".", MIME, ";", RATE44);
  }

  lemma PartInForm(parts: seq<string>, k: nat, c: char)
    requires k < |parts| && c in parts[k]
    ensures c in Form(parts)
  {
    JoinHolds(Elements(parts), c);
    assert c in Elements(parts)[k];
  }

  /** The protocol's decoder takes neither the head nor a tail for an instruction. */
  lemma PiecesAreNotForms(parts: seq<string>)
    requires parts != []
    ensures Form(parts) != AUDIO.head && Form(parts) != AUDIO.tail && Form(parts) != AUDIO.dropped
  {
    var digits := Itoa(ByteLen(parts[0]));
    assert Form(parts)[0] == Elements(parts)[0][0] == digits[0] && IsDigit(digits[0]);
    assert RATE44[0] == 'r' && RATE22[0] == 'r';
    assert AUDIO.tail[0] == 'r' && AUDIO.dropped[0] == 'r';
    if Form(parts) == AUDIO.head {
      HeadIsAscii();
      forall k | 0 <= k < |parts| ensures Ascii(parts[k]) {
        forall i | 0 <= i < |parts[k]| ensures parts[k][i] as int < 128 {
          PartInForm(parts, k, parts[k][i]);
        }
      }
      DecodeForm(parts, "");
      assert Form(parts) + "" == AUDIO.head;
      HeadDoesNotDecode();
    }
  }

  lemma HeadIsAscii()
    ensures forall c :: c in AUDIO.head ==> c as int < 128
  {}

  lemma UndecodableTail(v: string, rest: string)
    requires Ascii(v) && DecodeInstruction(rest).None?
    ensures DecodeInstruction(Element(v) + ("," + rest)).None?
  {
    ByteLenAscii(v);
    DecodeElementOf(v, "," + rest);
    assert (v + ("," + rest))[|v|..] == "," + rest && ("," + rest)[1..] == rest;
  }

  lemma TooShort(digits: string, n: nat, body: string)
    requires '.' !in digits && ParseNat(digits) == Some(n) && n > |body|
    ensures DecodeInstruction(digits + "." + body).None?
  {
    DecodeAfterDigits(digits, n, body);
    assert digits + "." + body == digits + ['.'] + body;
  }

  lemma HeadDoesNotDecode()
    ensures DecodeInstruction(AUDIO.head).None?
  {
    var last := "31" + "." + (MIME + ";");
    ThirtyOne();
    ParseItoa(31);
    TooShort("31", 31, MIME + ";");
    UndecodableTail("1", last);
    UndecodableTail("audio", Element("1") + ("," + last));
    ElementAscii("audio", "5");
    ElementAscii("1", "1");
    AudioPrefixes();
    Regroup4("5.audio", "1.1", "31", ",", ".", MIME, ";");
  }

  lemma Regroup4(p: string, q: string, h: string, c: string, d: string, x: string, e: string)
    ensures p + (c + (q + (c + (h + d + (x + e))))) == p + c + q + c + h + d + x + e
  {}

  function Forms(list: seq<seq<string>>): seq<string> {
    if list == [] then [] else [Form(list[0])] + Forms(list[1..])
  }

  lemma PlainMessage(m: Marks, c: string, cs: seq<string>)
    requires c != "" && c != m.head && c != m.tail && c != m.dropped
    ensures Messages(m, [c] + cs) == [c] + Messages(m, cs)
    ensures Balanced(m, [c] + cs) <==> Balanced(m, cs)
  {}

  lemma GluedMessage(m: Marks, cs: seq<string>)
    ensures Messages(m, [m.head] + ([m.tail] + cs)) == [m.head + m.tail] + Messages(m, cs)
    ensures Balanced(m, [m.head] + ([m.tail] + cs)) <==> Balanced(m, cs)
  {}

  lemma GluedStep(m: Marks, form: string, rest: string)
    requires form == m.head + m.tail
    ensures Messages(m, Chunks(form + rest)) == [form] + Messages(m, Chunks(rest))
    ensures Balanced(m, Chunks(form + rest)) <==> Balanced(m, Chunks(rest))
  {
    assert form + rest == m.head + (m.tail + rest);
    TwoChunks(m.head, m.tail, rest);
    GluedMessage(m, Chunks(rest));
  }

  lemma PlainStep(m: Marks, form: string, rest: string)
    requires IsChunk(form) && form != m.head && form != m.tail && form != m.dropped
    ensures Messages(m, Chunks(form + rest)) == [form] + Messages(m, Chunks(rest))
    ensures Balanced(m, Chunks(form + rest)) <==> Balanced(m, Chunks(rest))
  {
    ChunksCons(form, rest);
    PlainMessage(m, form, Chunks(rest));
  }

  /** For a stream of expected instructions every message forwarded is one whole instruction, in order, and
      nothing is added or lost. */
  lemma {:induction false} MessagesAreInstructions(list: seq<seq<string>>)
    requires forall k :: 0 <= k < |list| ==> Expected(list[k])
    ensures Messages(AUDIO, Chunks(Stream(list))) == Forms(list)
    ensures Balanced(AUDIO, Chunks(Stream(list)))
  {
    if list == [] {
    } else {
      MessagesAreInstructions(list[1..]);
      if list[0] == AUDIO_L16 {
        FormOfAudio();
        GluedStep(AUDIO, Form(list[0]), Stream(list[1..]));
      } else {
        FormIsChunk(list[0]);
        PiecesAreNotForms(list[0]);
        PlainStep(AUDIO, Form(list[0]), Stream(list[1..]));
      }
    }
  }

  lemma ChunksCons(c: string, rest: string)
    requires IsChunk(c)
    ensures Chunks(c + rest) == [c] + Chunks(rest)
  {
    var s, i := c + rest, SemicolonAt(c + rest);
    assert s[|c| - 1] == ';';
    assert forall k :: 0 <= k < |c| - 1 ==> s[k] == c[..|c| - 1][k];
    assert i == |c| - 1;
    assert s[..i + 1] == c && s[i + 1..] == rest;
  }

  lemma TwoChunks(a: string, b: string, rest: string)
    requires IsChunk(a) && IsChunk(b)
    ensures Chunks(a + (b + rest)) == [a] + ([b] + Chunks(rest))
  {
    ChunksCons(a, b + rest);
    ChunksCons(b, rest);
  }
}
