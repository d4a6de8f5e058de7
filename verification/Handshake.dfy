/** Opening a connection to guacd: the client selects a protocol, is told which parameters the protocol has,
    announces its capabilities, sends one value for each parameter and is given the connection's id. */
module Handshake {
  import opened Wrappers
  import opened Text
  import opened Guacamole
  import opened GuacdTunnel

  const VERSION := "VERSION_1_4_0"

  datatype Configuration = Configuration(connectionId: string, protocol: string, parameters: map<string, string>) {
    function GetParameter(name: string): string {
      if name in parameters then parameters[name] else ""
    }
  }

  /** strings.Contains with "VERSION". */
  predicate AsksVersion(name: string) {
    |name| >= 7 && (name[..7] == "VERSION" || AsksVersion(name[1..]))
  }

  /** The value sent for a parameter that guacd asks for. */
  function Answer(config: Configuration, name: string): string {
    if AsksVersion(name) then VERSION else config.GetParameter(name)
  }

  function Answers(config: Configuration, names: seq<string>): (values: seq<string>)
    ensures |values| == |names| && forall i :: 0 <= i < |names| ==> values[i] == Answer(config, names[i])
  {
    seq(|names|, i requires 0 <= i < |names| => Answer(config, names[i]))
  }

  // ---------- the instructions ----------

  function Select(config: Configuration): seq<string> {
    ["select", if config.connectionId == "" then config.protocol else config.connectionId]
  }

  function Announcements(config: Configuration): seq<seq<string>> {
    [["size", config.GetParameter("width"), config.GetParameter("height"), config.GetParameter("dpi")],
     ["audio", "audio/L8", "audio/L16"],
     ["video"],
     ["image", "image/jpeg", "image/png", "image/webp"],
     ["timezone", "Asia/Shanghai"]]
  }

  function Connect(config: Configuration, names: seq<string>): seq<string> {
    ["connect"] + Answers(config, names)
  }

  /** All that the client sends when it is asked for these parameters. */
  function Script(config: Configuration, names: seq<string>): (list: seq<seq<string>>)
    ensures |list| == 7
  {
    [Select(config)] + Announcements(config) + [Connect(config, names)]
  }

  // ---------- what is said ----------

  predicate VersionAt(name: string, k: nat) {
    k + 7 <= |name| && name[k..k + 7] == "VERSION"
  }

  lemma {:induction false} AsksVersionExactly(name: string)
    ensures AsksVersion(name) <==> exists k :: VersionAt(name, k)
  {
    if |name| < 7 {
    } else {
      AsksVersionExactly(name[1..]);
      assert name[..7] == name[0..7];
      if k: nat :| VersionAt(name[1..], k) {
        assert name[1..][k..k + 7] == name[k + 1..k + 8];
        assert VersionAt(name, k + 1);
      }
      if k: nat :| VersionAt(name, k) && k > 0 {
        assert name[1..][k - 1..k + 6] == name[k..k + 7];
        assert VersionAt(name[1..], k - 1);
      }
      if name[..7] == "VERSION" {
        assert VersionAt(name, 0);
      }
    }
  }

  /** The configured value, or nothing. */
  predicate Configured(config: Configuration, name: string, value: string) {
    value == if name in config.parameters then config.parameters[name] else ""
  }

  /** Which connection or protocol is wanted. */
  predicate Selects(config: Configuration, parts: seq<string>) {
    parts == ["select", if config.connectionId != "" then config.connectionId else config.protocol]
  }

  predicate Sizes(config: Configuration, parts: seq<string>) {
    && |parts| == 4 && parts[0] == "size"
    && Configured(config, "width", parts[1]) && Configured(config, "height", parts[2])
    && Configured(config, "dpi", parts[3])
  }

  /** One value for each parameter, in the order in which they were asked for. */
  ghost predicate Connects(config: Configuration, names: seq<string>, parts: seq<string>) {
    && |parts| == |names| + 1 && parts[0] == "connect"
    && forall i :: 0 <= i < |names| ==>
         if exists k :: VersionAt(names[i], k) then parts[i + 1] == "VERSION_1_4_0"
         else Configured(config, names[i], parts[i + 1])
  }

  /** The client's side of the dialogue. */
  ghost predicate Spoken(config: Configuration, names: seq<string>, list: seq<seq<string>>) {
    && |list| == 7
    && Selects(config, list[0]) && Sizes(config, list[1])
    && list[2] == ["audio", "audio/L8", "audio/L16"] && list[3] == ["video"]
    && list[4] == ["image", "image/jpeg", "image/png", "image/webp"] && list[5] == ["timezone", "Asia/Shanghai"]
    && Connects(config, names, list[6])
  }

  lemma AnnouncementsSpoken(config: Configuration)
    ensures var list := Announcements(config);
            && |list| == 5 && Sizes(config, list[0])
            && list[1] == ["audio", "audio/L8", "audio/L16"] && list[2] == ["video"]
            && list[3] == ["image", "image/jpeg", "image/png", "image/webp"] && list[4] == ["timezone", "Asia/Shanghai"]
  {}

  lemma ConnectSpoken(config: Configuration, names: seq<string>)
    ensures Connects(config, names, Connect(config, names))
  {
    forall i | 0 <= i < |names| ensures AsksVersion(names[i]) <==> exists k :: VersionAt(names[i], k) {
      AsksVersionExactly(names[i]);
    }
  }

  lemma ScriptSpoken(config: Configuration, names: seq<string>)
    ensures Spoken(config, names, Script(config, names))
  {
    AnnouncementsSpoken(config);
    ConnectSpoken(config, names);
    var list, told := Script(config, names), Announcements(config);
    assert list[0] == Select(config) && list[6] == Connect(config, names);
    assert list[1] == told[0] && list[2] == told[1] && list[3] == told[2] && list[4] == told[3] && list[5] == told[4];
  }

  // ---------- reading ----------

  /** The first instruction of a stream as ReadInstruction returns it. */
  function First(stream: string): Outcome<seq<string>> {
    if Chunks(stream) == [] then Err else Parse(ReadResult(AUDIO, Chunks(stream)[0]))
  }

  function Rest(stream: string): string {
    if Chunks(stream) == [] then ""
    else
      HeadOfStream(stream);
      stream[|Chunks(stream)[0]|..]
  }

  lemma HeadOfStream(stream: string)
    requires Chunks(stream) != []
    ensures |Chunks(stream)[0]| <= |stream|
  {}

  /** The expected instruction's arguments. */
  function Expect(stream: string, opcode: string): Outcome<seq<string>> {
    var parts :- First(stream);
    if parts[0] != opcode then Err else Ok(parts[1..])
  }

  class Client {
    const guacd: Tunnel
    var sent: string
    var written: nat
    var open: bool
    /** The instructions behind the bytes sent. */
    ghost var instructions: seq<seq<string>>

    ghost predicate Valid()
      reads this
    {
      sent == Stream(instructions)
    }

    /** A connection with what guacd is going to send over it. */
    constructor (stream: string)
      ensures Valid() && guacd.unread == stream && fresh(guacd) && instructions == [] && written == 0 && open
    {
      guacd := new Tunnel(stream);
      sent, written, open, instructions := "", 0, true, [];
    }

    method Write(writeOk: nat -> bool, parts: seq<string>) returns (ok: bool)
      requires Valid() && parts != []
      modifies this`sent, this`written, this`instructions
      ensures Valid() && ok == writeOk(old(written)) && written == old(written) + 1
      ensures instructions == if ok then old(instructions) + [parts] else old(instructions)
    {
      var instruction := new Instruction(parts[0], parts[1..]);
      var form := instruction.String();
      assert [parts[0]] + parts[1..] == parts;
      ok := writeOk(written);
      written := written + 1;
      if ok {
        StreamSnoc(instructions, parts);
        sent, instructions := sent + form, instructions + [parts];
      }
    }

    method ExpectOpcode(opcode: string) returns (r: Outcome<seq<string>>)
      modifies guacd
      ensures r == Expect(old(guacd.unread), opcode)
      ensures guacd.unread == Rest(old(guacd.unread))
    {
      ghost var stream := guacd.unread;
      var msg :- guacd.Read();
      var parts :- Parse(msg);
      if parts[0] != opcode {
        return Err;
      }
      return Ok(parts[1..]);
    }

    /** The parameters are answered one by one. */
    method AnswerAll(config: Configuration, names: seq<string>) returns (parameters: seq<string>)
      ensures parameters == Answers(config, names)
    {
      parameters := [];
      for i := 0 to |names|
        invariant parameters == Answers(config, names[..i])
      {
        if AsksVersion(names[i]) {
          parameters := parameters + [VERSION];
        } else {
          parameters := parameters + [config.GetParameter(names[i])];
        }
      }
      assert names[..|names|] == names;
    }

    /** Two instructions, the second only after the first. */
    method WriteTwo(x: seq<string>, y: seq<string>, writeOk: nat -> bool) returns (ok: bool)
      requires Valid() && x != [] && y != []
      modifies this`sent, this`written, this`instructions
      ensures Valid() && (ok <==> writeOk(old(written)) && writeOk(old(written) + 1))
      ensures ok ==> written == old(written) + 2 && instructions == old(instructions) + [x, y]
    {
      ok := Write(writeOk, x);
      if !ok {
        return;
      }
      ok := Write(writeOk, y);
    }

    /** The five announcements; the first write that fails ends them. */
    method WriteFive(list: seq<seq<string>>, writeOk: nat -> bool) returns (ok: bool)
      requires Valid() && written == 1 && |list| == 5 && forall k :: 0 <= k < 5 ==> list[k] != []
      modifies this`sent, this`written, this`instructions
      ensures Valid() && (ok <==> forall k :: 1 <= k <= 5 ==> writeOk(k))
      ensures ok ==> written == 6 && instructions == old(instructions) + list
    {
      ok := Write(writeOk, list[0]);
      if !ok {
        return;
      }
      ok := WriteTwo(list[1], list[2], writeOk);
      if !ok {
        return;
      }
      ok := WriteTwo(list[3], list[4], writeOk);
    }

    /** Everything up to the answers; after an error the connection is closed. */
    method Offer(config: Configuration, writeOk: nat -> bool) returns (r: Outcome<seq<string>>)
      requires Valid() && instructions == [] && written == 0 && open
      modifies this, guacd
      ensures Valid() && (r.Err? <==> !open)
      ensures r.Ok? <==> AllWrites(writeOk) && Expect(old(guacd.unread), "args").Ok?
      ensures r.Ok? ==> r == Expect(old(guacd.unread), "args")
                        && instructions == Script(config, r.value) && guacd.unread == Rest(old(guacd.unread))
    {
      var ok := Write(writeOk, Select(config));
      if !ok {
        open := false;
        return Err;
      }
      r := ExpectOpcode("args");
      if r.IsFailure() {
        open := !r.Err?;
        return;
      }
      ok := Reply(config, r.value, writeOk);
      if !ok {
        open := false;
        return Err;
      }
      ScriptAppended(Select(config), Announcements(config), Connect(config, r.value));
    }

    /** The announcements and the answers. */
    method Reply(config: Configuration, names: seq<string>, writeOk: nat -> bool) returns (ok: bool)
      requires Valid() && written == 1
      modifies this`sent, this`written, this`instructions
      ensures Valid() && (ok <==> forall k :: 1 <= k <= 6 ==> writeOk(k))
      ensures ok ==> instructions == old(instructions) + Announcements(config) + [Connect(config, names)]
    {
      ok := WriteFive(Announcements(config), writeOk);
      if !ok {
        return;
      }
      var parameters := AnswerAll(config, names);
      ok := Write(writeOk, ["connect"] + parameters);
    }

    /** The whole handshake. It succeeds exactly when every write does and guacd sends the two expected
        instructions, the second with a connection id; then the client has sent its script with one answer for
        each parameter asked for. After any error but one the connection is closed: when the last instruction
        is not the expected one it is left open. */
    method NewTunnel(config: Configuration, writeOk: nat -> bool) returns (r: Outcome<string>)
      requires Valid() && instructions == [] && written == 0 && open
      modifies this, guacd
      ensures Valid()
      ensures var args, ready := Expect(old(guacd.unread), "args"), Expect(Rest(old(guacd.unread)), "ready");
              && (r.Ok? <==> AllWrites(writeOk) && args.Ok? && ready.Ok? && ready.value != [])
              && (r.Err? ==> (open <==> AllWrites(writeOk) && args.Ok? && ready.Err?))
              && (r.Ok? ==>
                    && r.value == ready.value[0] && instructions == Script(config, args.value)
                    && Spoken(config, args.value, instructions)
                    && open && guacd.unread == Rest(Rest(old(guacd.unread))))
    {
      var args := Offer(config, writeOk);
      if args.IsFailure() {
        return args.PropagateFailure();
      }
      var ready := ExpectOpcode("ready");
      if ready.IsFailure() {
        return ready.PropagateFailure();
      }
      if |ready.value| == 0 {
        open := false;
        return Err;
      }
      ScriptSpoken(config, args.value);
      return Ok(ready.value[0]);
    }
  }

  lemma ScriptAppended(select: seq<string>, told: seq<seq<string>>, connect: seq<string>)
    ensures [] + [select] + told + [connect] == [select] + told + [connect]
  {}

  predicate AllWrites(writeOk: nat -> bool) {
    forall k :: 0 <= k <= 6 ==> writeOk(k)
  }

  lemma {:induction false} StreamSnoc(list: seq<seq<string>>, parts: seq<string>)
    ensures Stream(list + [parts]) == Stream(list) + Form(parts)
  {
    if list == [] {
      assert list + [parts] == [parts] && [parts][1..] == [];
    } else {
      assert (list + [parts])[1..] == list[1..] + [parts];
      StreamSnoc(list[1..], parts);
    }
  }

  // ---------- what guacd makes of it, and the client of guacd's answers ----------

  function SizeArgs(config: Configuration): seq<string> {
    [config.GetParameter("width"), config.GetParameter("height"), config.GetParameter("dpi")]
  }

  /** A decoder that goes by the lengths reads back the script, seven instructions and the last with the answers in
      the order of the parameters, exactly when all configured values that it carries are ASCII. */
  lemma ScriptDecodes(config: Configuration, names: seq<string>)
    ensures DecodeStream(Stream(Script(config, names))) == Some(Script(config, names))
            <==> AllAscii(Select(config)) && AllAscii(SizeArgs(config)) && AllAscii(Answers(config, names))
  {
    var list := Script(config, names);
    ConstantsAscii();
    AsciiCons("connect", Answers(config, names));
    ScriptList(config, names);
    DecodeStreamOf(list);
    AllSeven(list);
  }

  lemma ScriptList(config: Configuration, names: seq<string>)
    ensures var list := Script(config, names);
            && list[0] == Select(config) && (AllAscii(list[1]) <==> AllAscii(SizeArgs(config)))
            && list[2] == ["audio", "audio/L8", "audio/L16"] && list[3] == ["video"]
            && list[4] == ["image", "image/jpeg", "image/png", "image/webp"] && list[5] == ["timezone", "Asia/Shanghai"]
            && list[6] == Connect(config, names)
            && forall k :: 0 <= k < 7 ==> list[k] != []
  {
    var list, told := Script(config, names), Announcements(config);
    var w, h, d := config.GetParameter("width"), config.GetParameter("height"), config.GetParameter("dpi");
    assert list[1] == told[0] && list[2] == told[1] && list[3] == told[2] && list[4] == told[3] && list[5] == told[4];
    ConstantsAscii();
    AsciiCons("size", SizeArgs(config));
    assert ["size"] + SizeArgs(config) == ["size", w, h, d];
  }

  lemma AllSeven(list: seq<seq<string>>)
    requires |list| == 7
    ensures (forall k :: 0 <= k < |list| ==> AllAscii(list[k])) <==>
            && AllAscii(list[0]) && AllAscii(list[1]) && AllAscii(list[2]) && AllAscii(list[3]) && AllAscii(list[4])
            && AllAscii(list[5]) && AllAscii(list[6])
  {}

  lemma AsciiCons(opcode: string, args: seq<string>)
    requires Ascii(opcode)
    ensures AllAscii([opcode] + args) <==> AllAscii(args)
  {
    if AllAscii([opcode] + args) {
      forall k | 0 <= k < |args| ensures Ascii(args[k]) {
        assert args[k] == ([opcode] + args)[k + 1];
      }
    }
  }

  lemma ConstantsAscii()
    ensures Ascii("connect") && Ascii("size") && AllAscii(["audio", "audio/L8", "audio/L16"]) && AllAscii(["video"])
    ensures AllAscii(["image", "image/jpeg", "image/png", "image/webp"]) && AllAscii(["timezone", "Asia/Shanghai"])
  {}

  /** An instruction that guacd may send during the handshake. */
  predicate Clean(parts: seq<string>) {
    parts != [] && Free(parts) && forall k :: 0 <= k < |parts| ==> ';' !in parts[k]
  }

  lemma FirstOfForm(parts: seq<string>, rest: string)
    requires Clean(parts)
    ensures First(Form(parts) + rest) == Ok(parts) && Rest(Form(parts) + rest) == rest
  {
    FormIsChunk(parts);
    ChunksCons(Form(parts), rest);
    PiecesAreNotForms(parts);
    ParseExactly(parts);
    assert (Form(parts) + rest)[|Form(parts)|..] == rest;
  }

  /** A server that asks for these parameters and then gives this id is understood, and what it sends next is
      left to be read. */
  lemma ServerUnderstood(names: seq<string>, id: string, rest: string)
    requires Clean(["args"] + names) && Clean(["ready", id])
    ensures var stream := Form(["args"] + names) + (Form(["ready", id]) + rest);
            && Expect(stream, "args") == Ok(names)
            && Expect(Rest(stream), "ready") == Ok([id])
            && Rest(Rest(stream)) == rest
  {
    FirstOfForm(["args"] + names, Form(["ready", id]) + rest);
    FirstOfForm(["ready", id], rest);
    assert (["args"] + names)[1..] == names && ["ready", id][1..] == [id];
  }
}
